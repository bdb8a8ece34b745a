/**
 The rotate command: loops over the remote's listings, then publishes and deletes in a
 fixed order. `budget` is the number of remote writes that succeed before an outage, so a
 statement about every budget is a statement about a crash at every write.
 */
module RetentionRotate {
  import opened Basics
  import opened RetentionPolicy
  import opened Retention
  import opened RetentionRuns

  datatype Decision = Keep(reasons: seq<Reason>) | DeleteExpired | DeleteResuming | DeleteFinalizing

  /** What the policy says about one point, before journals are taken into account. */
  function PolicyDecision(c: Contract, r: Record, now: int, p: Option<Id>): Decision {
    var reasons := c.reasons(r.frozen, r.tags, now) + if p == Some(r.id) then [UniqueVerified] else [];
    if reasons == [] then DeleteExpired else Keep(reasons)
  }

  /** Every point named by a marker or a journal gets exactly one decision. */
  ghost predicate DecisionsOf(c: Contract, s: Remote, now: int, p: Option<Id>, d: map<Id, Decision>) {
    && d.Keys == s.complete.Keys + s.deleting.Keys
    && forall id | id in d ::
         if id in Finalizing(s) then d[id] == DeleteFinalizing
         else if id in Journaled(s) then d[id] == DeleteResuming
         else id in s.manifests && d[id] == PolicyDecision(c, s.manifests[id], now, p)
  }

  datatype Outcome = Refused | Crashed | Done(decisions: map<Id, Decision>, targets: seq<Target>)

  /** Every deletion of a rotation, in order; a dry run reports exactly these. */
  function PlannedTargets(s: Remote, v: Verdict, doomed: seq<Id>): seq<Target>
    requires forall id | id in doomed :: id in s.manifests
  {
    if doomed == [] then []
    else PlannedTargets(s, v, doomed[..|doomed| - 1]) + TargetsFor(s, v, doomed[|doomed| - 1])
  }

  function JournalTargets(finals: seq<Id>): seq<Target> {
    seq(|finals|, i requires 0 <= i < |finals| => Journal(finals[i]))
  }

  /** The last record with an identity. */
  function LastRecord(points: seq<Record>, id: Id): (r: Option<Record>)
    ensures r.Some? ==> r.value in points && r.value.id == id
    ensures r.None? <==> forall x | x in points :: x.id != id
  {
    if points == [] then None
    else
      var n := |points| - 1;
      if points[n].id == id then Some(points[n]) else LastRecord(points[..n], id)
  }

  /** Decide every point of a list; a repeated identity keeps its last decision. */
  method RetentionDecisions(c: Contract, points: seq<Record>, now: int, p: Option<Id>)
    returns (result: map<Id, Decision>)
    ensures result.Keys == set r | r in points :: r.id
    ensures forall id | id in result ::
              LastRecord(points, id).Some? && result[id] == PolicyDecision(c, LastRecord(points, id).value, now, p)
  {
    result := map[];
    for i := 0 to |points|
      invariant result.Keys == set r | r in points[..i] :: r.id
      invariant forall id | id in result ::
                  LastRecord(points[..i], id).Some?
                  && result[id] == PolicyDecision(c, LastRecord(points[..i], id).value, now, p)
    {
      assert points[..i + 1] == points[..i] + [points[i]];
      assert points[..i + 1][..i] == points[..i];
      result := result[points[i].id := PolicyDecision(c, points[i], now, p)];
    }
    assert points[..|points|] == points;
  }

  /**
   What the report says of a completed point without a journal, in terms of the remote alone: it is reported as kept
   exactly when a generation gives a reason or it is the newest verified point, and with exactly those reasons.
   */
  ghost predicate PointReported(c: Contract, s: Remote, now: int, id: Id, d: Decision)
    requires id in s.complete
  {
    var reasons := c.reasons(s.complete[id].frozen, s.complete[id].tags, now);
    && (d.Keep? <==> Deserving(c, s, now, id))
    && (d.Keep? ==>
          forall reason :: reason in d.reasons <==> reason in reasons || (reason == UniqueVerified && IsNewest(s, id)))
  }

  /** Whatever is not kept is a target, and whatever is kept is none. */
  ghost predicate ReportedAt(c: Contract, s: Remote, now: int, id: Id, d: Decision, targets: seq<Target>) {
    && (id in s.complete && id !in s.deleting ==> PointReported(c, s, now, id, d))
    && (id in s.deleting ==> !d.Keep?)
    && (Journal(id) in targets <==> !d.Keep?)
    && (id in s.complete ==> (CompleteMarker(id) in targets <==> !d.Keep?))
  }

  ghost predicate Reported(c: Contract, s: Remote, now: int, d: map<Id, Decision>, targets: seq<Target>) {
    && d.Keys == s.complete.Keys + s.deleting.Keys
    && forall id | id in d :: ReportedAt(c, s, now, id, d[id], targets)
  }

  lemma {:induction false} PlannedMembers(s: Remote, v: Verdict, doomed: seq<Id>, t: Target)
    requires forall id | id in doomed :: id in s.manifests
    ensures t in PlannedTargets(s, v, doomed) <==> exists id | id in doomed :: t in TargetsFor(s, v, id)
  {
    if doomed != [] {
      var n := |doomed| - 1;
      assert doomed == doomed[..n] + [doomed[n]];
      PlannedMembers(s, v, doomed[..n], t);
    }
  }

  lemma OnlyItsOwn(s: Remote, v: Verdict, id: Id, other: Id)
    requires other in s.manifests
    ensures CompleteMarker(id) in TargetsFor(s, v, other) <==> id == other
    ensures Journal(id) in TargetsFor(s, v, other) <==> id == other
  {
  }

  lemma TargetsAreDoomed(s: Remote, v: Verdict, o: Order, id: Id)
    requires ListingOf(v, o) && forall x | x in o.journals + o.dropped :: x in s.manifests
    ensures var targets := PlannedTargets(s, v, o.journals + o.dropped) + JournalTargets(o.finals);
            && (CompleteMarker(id) in targets <==> v.Doomed(id))
            && (Journal(id) in targets <==> v.Doomed(id) || id in v.finalizing)
  {
    var doomed := o.journals + o.dropped;
    PlannedMembers(s, v, doomed, CompleteMarker(id));
    PlannedMembers(s, v, doomed, Journal(id));
    forall other | other in doomed
      ensures CompleteMarker(id) in TargetsFor(s, v, other) <==> id == other
      ensures Journal(id) in TargetsFor(s, v, other) <==> id == other
    {
      OnlyItsOwn(s, v, id, other);
    }
    assert id in doomed <==> id in Members(o.journals) || id in Members(o.dropped);
    hide TargetsFor, PlannedTargets;
    assert Journal(id) in JournalTargets(o.finals) <==> id in o.finals by {
      if id in o.finals {
        var i :| 0 <= i < |o.finals| && o.finals[i] == id;
        assert JournalTargets(o.finals)[i] == Journal(id);
      }
    }
    assert id in o.finals <==> id in Members(o.finals);
  }

  lemma DecisionsAreReported(c: Contract, s: Remote, now: int, p: Option<Id>, o: Order, d: map<Id, Decision>)
    requires Accepts(c, s, now) && IsProtected(s, p) && ListingOf(Judge(c, s, now, p), o)
    requires DecisionsOf(c, s, now, p, d) && forall x | x in o.journals + o.dropped :: x in s.manifests
    ensures Reported(c, s, now, d,
              PlannedTargets(s, Judge(c, s, now, p), o.journals + o.dropped) + JournalTargets(o.finals))
  {
    var targets := PlannedTargets(s, Judge(c, s, now, p), o.journals + o.dropped) + JournalTargets(o.finals);
    assert d.Keys == s.complete.Keys + s.deleting.Keys;
    hide Accepts, IsProtected, ListingOf, Judge, DecisionsOf, PlannedTargets, JournalTargets, ReportedAt;
    forall id | id in d ensures ReportedAt(c, s, now, id, d[id], targets) {
      DecisionIsReported(c, s, now, p, o, d, id);
    }
  }

  lemma DecisionIsReported(c: Contract, s: Remote, now: int, p: Option<Id>, o: Order, d: map<Id, Decision>, id: Id)
    requires Accepts(c, s, now) && IsProtected(s, p) && ListingOf(Judge(c, s, now, p), o)
    requires DecisionsOf(c, s, now, p, d) && id in d && forall x | x in o.journals + o.dropped :: x in s.manifests
    ensures ReportedAt(c, s, now, id, d[id],
              PlannedTargets(s, Judge(c, s, now, p), o.journals + o.dropped) + JournalTargets(o.finals))
  {
    TargetsAreDoomed(s, Judge(c, s, now, p), o, id);
    DecidedAsJudged(c, s, now, p, d, id);
    hide PlannedTargets, JournalTargets, PointReported, Accepts, Judge, IsProtected, DecisionsOf, ListingOf;
  }

  lemma DecidedAsJudged(c: Contract, s: Remote, now: int, p: Option<Id>, d: map<Id, Decision>, id: Id)
    requires Accepts(c, s, now) && IsProtected(s, p) && DecisionsOf(c, s, now, p, d) && id in d
    ensures var v := Judge(c, s, now, p);
            && (id in s.complete && id !in s.deleting ==> PointReported(c, s, now, id, d[id]))
            && (id in s.deleting ==> !d[id].Keep?)
            && (!d[id].Keep? <==> v.Doomed(id) || id in v.finalizing)
            && (id in s.complete ==> id !in v.finalizing)
  {
    if id in s.deleting {
      assert JournalValid(c, s, id);
    } else {
      KeptExactly(c, s, now, p, id);
      PolicyIsReported(c, s, now, p, id);
    }
  }

  lemma PolicyIsReported(c: Contract, s: Remote, now: int, p: Option<Id>, id: Id)
    requires CompletionsValid(c, s) && IsProtected(s, p) && id in s.complete
    ensures PointReported(c, s, now, id, PolicyDecision(c, s.manifests[id], now, p))
  {
    assert ValidRecord(c, id, s.manifests[id]) && MarkerAgrees(s.complete[id], s.manifests[id]);
    hide CompletionsValid, ValidRecord;
    if IsNewest(s, id) {
      OnlyOneNewest(s, p, id);
    }
  }

  lemma FinishedRotationIsRotated(c: Contract, s: Remote, now: int, p: Option<Id>, o: Order, n: nat)
    requires Accepts(c, s, now) && IsProtected(s, p) && ListingOf(Judge(c, s, now, p), o)
    requires Finished(Steps(Begin(c, s, now, p, o), s, n).0)
    ensures Rotated(c, s, now, Steps(Begin(c, s, now, p, o), s, n).1)
  {
    var r0 := Begin(c, s, now, p, o);
    BeginsInFlight(c, s, now, p, o);
    assert r0.start == s && r0.verdict == Judge(c, s, now, p);
    hide InFlight, Judge, Begin, Rotated, Accepts, IsProtected, Next, ListingOf;
    var done := StepsInFlight(r0, s, n);
    StepsKeepStart(r0, s, n);
    var (r, t) := Steps(r0, s, n);
    FinishedIsRotated(c, r, t, done, now);
  }

  lemma RotatedAsReported(c: Contract, s: Remote, now: int, d: map<Id, Decision>, targets: seq<Target>, t: Remote)
    requires Reported(c, s, now, d, targets) && Rotated(c, s, now, t)
    ensures forall id | id in s.complete && id !in s.deleting :: id in d && (id in t.complete <==> d[id].Keep?)
  {
    forall id | id in s.complete && id !in s.deleting ensures id in t.complete <==> d[id].Keep? {
      assert ReportedAt(c, s, now, id, d[id], targets) && RotatedAt(c, s, now, t, id);
    }
  }

  /**
   Under the shipped contract a finished rotation removes a completed point exactly when it is past the 14 days, past
   the eight weeks if it was frozen on a Monday, past the six months if on the first of one, and not the newest proved.
   */
  lemma BusinessRotationRemoves(s: Remote, now: int, t: Remote, id: Id)
    requires Accepts(BUSINESS_CONTRACT, s, now) && Rotated(BUSINESS_CONTRACT, s, now, t)
    requires id in s.complete && id !in s.deleting
    ensures id !in t.complete <==> PastEveryCutoff(s.complete[id].frozen, now) && !IsNewest(s, id)
  {
    var c := BUSINESS_CONTRACT;
    assert ValidRecord(c, id, s.manifests[id]) && MarkerAgrees(s.complete[id], s.manifests[id]);
    assert RotatedAt(c, s, now, t, id);
    hide IsNewest, PastEveryCutoff;
    ExpiredIffPastEveryCutoff(s.complete[id].frozen, now);
  }

  class RemoteStore {
    var remote: Remote
    var budget: nat

    constructor (remote: Remote, budget: nat)
      ensures this.remote == remote && this.budget == budget
    {
      this.remote, this.budget := remote, budget;
    }

    /** A directory listing, in an order the caller cannot choose. */
    method List(ids: set<Id>) returns (names: seq<Id>)
      ensures Distinct(names) && Members(names) == ids
    {
      names := [];
      var rest := ids;
      while rest != {}
        invariant Distinct(names) && Members(names) == ids - rest && rest <= ids
        decreases rest
      {
        var id :| id in rest;
        assert id !in Members(names);
        assert Members(names + [id]) == Members(names) + {id};
        names, rest := names + [id], rest - {id};
      }
    }

    method Write(next: Remote) returns (ok: bool)
      modifies this
      ensures ok == (old(budget) > 0)
      ensures remote == if ok then next else old(remote)
    {
      ok := budget > 0;
      if ok {
        budget, remote := budget - 1, next;
      }
    }

    method ValidatedCompletionRecords(c: Contract) returns (result: Option<map<Id, Record>>)
      ensures result.Some? <==> CompletionsValid(c, remote)
      ensures result.Some? ==>
                result.value.Keys == remote.complete.Keys
                && forall id | id in result.value :: id in remote.manifests && result.value[id] == remote.manifests[id]
    {
      var names := List(remote.complete.Keys);
      var records: map<Id, Record> := map[];
      for i := 0 to |names|
        invariant records.Keys == Members(names[..i])
        invariant forall id | id in names[..i] ::
                    && id in remote.manifests && records[id] == remote.manifests[id]
                    && ValidRecord(c, id, remote.manifests[id])
                    && id in remote.complete && MarkerAgrees(remote.complete[id], remote.manifests[id])
      {
        var id := names[i];
        assert id in Members(names);
        if id !in remote.manifests || !ValidRecord(c, id, remote.manifests[id])
           || !MarkerAgrees(remote.complete[id], remote.manifests[id]) {
          return None;
        }
        assert names[..i + 1] == names[..i] + [id];
        records := records[id := remote.manifests[id]];
      }
      assert names[..|names|] == names;
      forall id | id in remote.complete
        ensures id in remote.manifests && ValidRecord(c, id, remote.manifests[id])
                && MarkerAgrees(remote.complete[id], remote.manifests[id])
      {
        assert id in Members(names);
      }
      return Some(records);
    }

    /** The journals that still have a manifest, and the identities of those that do not. */
    method ValidatedJournalRecords(c: Contract) returns (result: Option<(map<Id, Record>, set<Id>)>)
      ensures result.Some? <==> JournalsValid(c, remote)
      ensures result.Some? ==>
                && result.value.0.Keys == Journaled(remote) && result.value.1 == Finalizing(remote)
                && forall id | id in result.value.0 :: id in remote.manifests && result.value.0[id] == remote.manifests[id]
    {
      var names := List(remote.deleting.Keys);
      var records: map<Id, Record>, finalizing := map[], {};
      for i := 0 to |names|
        invariant records.Keys == set id | id in names[..i] && id in remote.manifests
        invariant finalizing == set id | id in names[..i] && id !in remote.manifests
        invariant forall id | id in records :: records[id] == remote.manifests[id]
        invariant forall id | id in names[..i] :: id in remote.deleting && JournalValid(c, remote, id)
      {
        var id := names[i];
        assert id in Members(names);
        assert names[..i + 1] == names[..i] + [id];
        if id !in remote.manifests {
          if id in remote.complete || id in remote.verified {
            return None;
          }
          finalizing := finalizing + {id};
        } else {
          if !ValidRecord(c, id, remote.manifests[id]) || remote.deleting[id] != remote.manifests[id] {
            return None;
          }
          records := records[id := remote.manifests[id]];
        }
      }
      assert names[..|names|] == names;
      assert forall id | id in remote.deleting :: id in Members(names);
      return Some((records, finalizing));
    }

    method ValidatedVerifiedIds(all: map<Id, Record>) returns (result: Option<seq<Id>>)
      ensures result.Some? <==>
              forall id | id in remote.verified ::
                id in all && remote.verified[id] == Proof(id, all[id].manifestSha)
      ensures result.Some? ==> Members(result.value) == remote.verified.Keys
    {
      var names := List(remote.verified.Keys);
      for i := 0 to |names|
        invariant forall id | id in names[..i] ::
                    id in remote.verified && id in all && remote.verified[id] == Proof(id, all[id].manifestSha)
      {
        var id := names[i];
        assert id in Members(names);
        if id !in all || remote.verified[id] != Proof(id, all[id].manifestSha) {
          return None;
        }
      }
      assert names[..|names|] == names;
      assert forall id | id in remote.verified :: id in Members(names);
      return Some(names);
    }

    /** The verified point with the greatest freeze time, ties broken by identity. */
    method NewestVerified(names: seq<Id>) returns (p: Option<Id>)
      requires Members(names) == remote.verified.Keys
      requires forall id | id in remote.verified :: id in remote.manifests
      ensures IsProtected(remote, p)
    {
      p := None;
      for i := 0 to |names|
        invariant p.None? <==> i == 0
        invariant p.Some? ==> p.value in remote.verified
        invariant p.Some? ==> forall id | id in names[..i] :: id in remote.manifests && AtLeast(remote, p.value, id)
      {
        assert names[i] in Members(names);
        assert names[..i + 1] == names[..i] + [names[i]];
        if p.None? || !AtLeast(remote, p.value, names[i]) {
          p := Some(names[i]);
        }
      }
      assert names[..|names|] == names;
      assert forall id | id in remote.verified :: id in Members(names);
    }

    /** Every read and every check, before the first write. */
    method Inspect(c: Contract, now: int)
      returns (accepted: bool, p: Option<Id>, decisions: map<Id, Decision>)
      ensures accepted <==> Accepts(c, remote, now)
      ensures accepted ==> IsProtected(remote, p) && DecisionsOf(c, remote, now, p, decisions)
    {
      accepted, p, decisions := false, None, map[];
      var completions := ValidatedCompletionRecords(c);
      if completions.None? { return; }
      var journals := ValidatedJournalRecords(c);
      if journals.None? { return; }
      var (journalById, finalizing) := journals.value;
      var all := completions.value + journalById;
      AllMarkers(c, remote, completions.value, journalById);
      var verified := ValidatedVerifiedIds(all);
      if verified.None? { return; }
      p := NewestVerified(verified.value);
      ProtectedIntactIff(c, remote, p);
      hide CompletionsValid, JournalsValid, ProofsBound, ProtectedIntact, IsProtected, JournalsExpired, DecisionsOf;
      if p.Some? && p.value in journalById { return; }
      accepted, decisions := Decide(c, now, p, all, journalById.Keys, finalizing);
    }

    /** Apply the policy, then the journals. */
    method Decide(c: Contract, now: int, p: Option<Id>, all: map<Id, Record>, journaled: set<Id>, finalizing: set<Id>)
      returns (accepted: bool, decisions: map<Id, Decision>)
      requires JournalsValid(c, remote) && journaled == Journaled(remote) && finalizing == Finalizing(remote)
      requires forall id | id in all :: id in remote.manifests && all[id] == remote.manifests[id] && all[id].id == id
      requires all.Keys == remote.complete.Keys + Journaled(remote) && (p.Some? ==> p.value !in journaled)
      ensures accepted <==> JournalsExpired(c, remote, now)
      ensures accepted ==> DecisionsOf(c, remote, now, p, decisions)
    {
      var policy := DecideAll(c, now, p, all);
      hide PolicyDecision, JournalValid, DecisionsOf;
      JournalPolicy(c, remote, now, p, policy);
      accepted, decisions := ResumeJournals(c, now, p, journaled, finalizing, policy);
      if accepted {
        DecidedCompletely(c, remote, now, p, policy, decisions);
      }
    }

    /** The policy's decision for every point that a marker or a journal names. */
    method DecideAll(c: Contract, now: int, p: Option<Id>, all: map<Id, Record>) returns (d: map<Id, Decision>)
      requires forall id | id in all :: id in remote.manifests && all[id] == remote.manifests[id] && all[id].id == id
      ensures d.Keys == all.Keys
      ensures forall id | id in all :: d[id] == PolicyDecision(c, remote.manifests[id], now, p)
    {
      hide PolicyDecision, LastRecord;
      var ids := List(all.Keys);
      assert forall i | 0 <= i < |ids| :: ids[i] in Members(ids);
      var points := Points(ids, all);
      d := RetentionDecisions(c, points, now, p);
      AllDecided(c, remote, now, p, ids, all, points, d);
    }

    /** Journaled points must still be expired; their deletion is resumed or finalized. */
    method ResumeJournals(c: Contract, now: int, p: Option<Id>, journaled: set<Id>, finalizing: set<Id>,
                          policy: map<Id, Decision>)
      returns (accepted: bool, decisions: map<Id, Decision>)
      requires journaled <= policy.Keys && policy.Keys !! finalizing
      requires forall id | id in policy :: id in remote.manifests
      requires forall id | id in journaled ::
                 policy[id] == DeleteExpired <==> c.Expired(remote.manifests[id].frozen, now)
      ensures accepted <==> forall id | id in journaled :: c.Expired(remote.manifests[id].frozen, now)
      ensures accepted ==> decisions.Keys == policy.Keys + finalizing
      ensures accepted ==> forall id | id in decisions ::
                decisions[id] == if id in finalizing then DeleteFinalizing
                                 else if id in journaled then DeleteResuming else policy[id]
    {
      decisions := policy;
      var ids := List(journaled);
      for i := 0 to |ids|
        invariant forall id | id in ids[..i] :: id in journaled && c.Expired(remote.manifests[id].frozen, now)
        invariant decisions.Keys == policy.Keys
        invariant forall id | id in policy :: decisions[id] == if id in ids[..i] then DeleteResuming else policy[id]
      {
        var id := ids[i];
        assert id in Members(ids);
        assert ids[..i + 1] == ids[..i] + [id];
        assert id !in ids[..i];
        if decisions[id] != DeleteExpired {
          return false, decisions;
        }
        decisions := decisions[id := DeleteResuming];
      }
      assert ids[..|ids|] == ids;
      assert forall id | id in journaled :: id in Members(ids);
      accepted := true;
      decisions := decisions + map id | id in finalizing :: DeleteFinalizing;
    }

    /** Publish the journals of the dropped points. */
    method PublishJournals(r: Rotation) returns (ok: bool, ghost n: nat)
      requires remote == r.start && forall id | id in r.publish :: id in r.start.manifests
      modifies this
      ensures Steps(r, old(remote), n).1 == remote
      ensures ok ==> Steps(r, old(remote), n).0 == r.(publish := [])
    {
      n := 0;
      for i := 0 to |r.publish|
        invariant Steps(r, old(remote), n) == (r.(publish := r.publish[i..]), remote)
      {
        assert r.publish[i] in r.publish;
        ok := Write(Publish(remote, r.start.manifests[r.publish[i]]));
        if !ok { return; }
        n := n + 1;
        assert r.publish[i..][1..] == r.publish[i + 1..];
      }
      ok := true;
    }

    /** Delete one doomed point, target by target. */
    method DeletePoint(r: Rotation, start: Remote, r0: Rotation, ghost k: nat) returns (ok: bool, ghost n: nat)
      requires Steps(r0, start, k) == (r, remote)
      requires r.publish == [] && r.at == 0
      modifies this
      ensures Steps(r0, start, n).1 == remote
      ensures ok ==> Steps(r0, start, n).0 == r.(at := |r.active|)
    {
      n := k;
      for j := 0 to |r.active|
        invariant Steps(r0, start, n) == (r.(at := j), remote)
      {
        ok := Write(Remove(remote, r.active[j]));
        if !ok { return; }
        n := n + 1;
      }
      ok := true;
    }

    /** Delete every doomed point, then the bare journals. */
    method DeleteAll(r: Rotation, start: Remote, r0: Rotation, ghost k: nat) returns (ok: bool, ghost n: nat)
      requires Steps(r0, start, k) == (r, remote)
      requires r.publish == [] && r.active == [] && r.at == 0
      requires forall id | id in r.doomed :: id in r.start.manifests
      modifies this
      ensures Steps(r0, start, n).1 == remote
      ensures ok ==> Finished(Steps(r0, start, n).0)
    {
      n := k;
      var cur := r;
      for i := 0 to |r.doomed|
        invariant Steps(r0, start, n) == (cur, remote)
        invariant cur == r.(doomed := r.doomed[i..], active := cur.active, at := |cur.active|)
      {
        assert r.doomed[i] in r.doomed;
        assert r.doomed[i..][1..] == r.doomed[i + 1..];
        cur := r.(doomed := r.doomed[i + 1..], active := TargetsFor(r.start, r.verdict, r.doomed[i]), at := 0);
        n := n + 1;
        ok, n := DeletePoint(cur, start, r0, n);
        if !ok { return; }
        cur := cur.(at := |cur.active|);
      }
      for i := 0 to |r.finals|
        invariant Steps(r0, start, n) == (cur, remote)
        invariant cur == r.(doomed := [], active := cur.active, at := |cur.active|, finals := r.finals[i..])
      {
        ok := Write(Remove(remote, Journal(r.finals[i])));
        if !ok { return; }
        n := n + 1;
        assert r.finals[i..][1..] == r.finals[i + 1..];
        cur := cur.(finals := r.finals[i + 1..]);
      }
      ok := true;
    }

    /** What a rotation would delete. */
    static method Commands(s: Remote, v: Verdict, doomed: seq<Id>, finals: seq<Id>) returns (commands: seq<Target>)
      requires forall id | id in doomed :: id in s.manifests
      ensures commands == PlannedTargets(s, v, doomed) + JournalTargets(finals)
    {
      commands := [];
      for i := 0 to |doomed|
        invariant commands == PlannedTargets(s, v, doomed[..i])
      {
        assert doomed[..i + 1][..i] == doomed[..i];
        commands := commands + TargetsFor(s, v, doomed[i]);
      }
      assert doomed[..|doomed|] == doomed;
      for i := 0 to |finals|
        invariant commands == PlannedTargets(s, v, doomed) + JournalTargets(finals)[..i]
      {
        commands := commands + [Journal(finals[i])];
      }
    }

    /**
     Check everything, decide everything, publish the journals, and only then delete. The
     ghost results name the rotation that was carried out and how many of its steps were.
     */
    method Rotate(c: Contract, now: int, dryRun: bool)
      returns (outcome: Outcome, ghost p: Option<Id>, ghost o: Order, ghost n: nat)
      modifies this
      ensures outcome.Refused? <==> !Accepts(c, old(remote), now)
      ensures outcome.Refused? || dryRun ==> remote == old(remote) && !outcome.Crashed?
      ensures !outcome.Refused? ==>
                IsProtected(old(remote), p) && ListingOf(Judge(c, old(remote), now, p), o)
      ensures !outcome.Refused? && !dryRun ==>
                var (r, s) := Steps(Begin(c, old(remote), now, p, o), old(remote), n);
                remote == s && (outcome.Done? ==> Finished(r))
      ensures outcome.Done? ==> Reported(c, old(remote), now, outcome.decisions, outcome.targets)
      ensures outcome.Done? && !dryRun ==>
                && Rotated(c, old(remote), now, remote)
                && (forall id | id in old(remote).complete && id !in old(remote).deleting ::
                      id in remote.complete <==> outcome.decisions[id].Keep?)
      ensures outcome.Done? ==>
                && DecisionsOf(c, old(remote), now, p, outcome.decisions)
                && (forall id | id in o.journals + o.dropped :: id in old(remote).manifests)
                && outcome.targets
                   == PlannedTargets(old(remote), Judge(c, old(remote), now, p), o.journals + o.dropped)
                      + JournalTargets(o.finals)
    {
      p, o, n := None, Order([], [], []), 0;
      var start := remote;
      var accepted, protected, decisions := Inspect(c, now);
      if !accepted {
        return Refused, p, o, n;
      }
      p := protected;
      var v := Judge(c, start, now, protected);
      JudgedSoundly(c, start, now, protected);
      var journals := List(v.journaled);
      var dropped := List(v.dropped);
      var finals := List(v.finalizing);
      o := Order(journals, dropped, finals);
      DoomedHaveManifests(start, v, o);
      hide Accepts, Judge, Sound, IsProtected, DecisionsOf;
      var commands := Commands(start, v, journals + dropped, finals);
      DecisionsAreReported(c, start, now, p, o, decisions);
      hide PlannedTargets, JournalTargets, Reported, Rotated, Next;
      if dryRun {
        return Done(decisions, commands), p, o, n;
      }
      var r := Rotation(start, v, dropped, journals + dropped, [], 0, finals);
      var ok;
      ok, n := PublishJournals(r);
      if !ok {
        return Crashed, p, o, n;
      }
      ok, n := DeleteAll(r.(publish := []), start, r, n);
      outcome := if ok then Done(decisions, commands) else Crashed;
      if ok {
        FinishedRotationIsRotated(c, start, now, p, o, n);
        RotatedAsReported(c, start, now, decisions, commands, remote);
      }
    }

    /** The points of a listing, as the policy wants them. */
    static method Points(ids: seq<Id>, all: map<Id, Record>) returns (points: seq<Record>)
      requires forall id | id in ids :: id in all
      ensures |points| == |ids| && forall i | 0 <= i < |ids| :: points[i] == all[ids[i]]
    {
      points := [];
      for i := 0 to |ids|
        invariant |points| == i && forall j | 0 <= j < i :: points[j] == all[ids[j]]
      {
        points := points + [all[ids[i]]];
      }
    }
  }

  lemma DoomedHaveManifests(s: Remote, v: Verdict, o: Order)
    requires Sound(s, v) && ListingOf(v, o)
    ensures forall id | id in o.journals + o.dropped :: id in s.manifests
    ensures forall id | id in o.dropped :: id in s.manifests
  {
    forall id | id in o.journals + o.dropped ensures id in s.manifests {
      assert id in Members(o.journals) || id in Members(o.dropped);
      assert v.Doomed(id);
      assert OwnRecord(s, id);
    }
    assert forall id | id in o.dropped :: id in o.journals + o.dropped;
  }

  lemma AllMarkers(c: Contract, s: Remote, completions: map<Id, Record>, journalById: map<Id, Record>)
    requires CompletionsValid(c, s) && JournalsValid(c, s)
    requires completions.Keys == s.complete.Keys && journalById.Keys == Journaled(s)
    requires forall id | id in completions :: id in s.manifests && completions[id] == s.manifests[id]
    requires forall id | id in journalById :: id in s.manifests && journalById[id] == s.manifests[id]
    ensures var all := completions + journalById;
            && (forall id | id in all :: id in s.manifests && all[id] == s.manifests[id] && all[id].id == id)
            && all.Keys == s.complete.Keys + Journaled(s)
            && (ProofsBound(s) <==> forall id | id in s.verified ::
                  id in all && s.verified[id] == Proof(id, all[id].manifestSha))
  {
    var all := completions + journalById;
    forall id | id in all ensures id in s.manifests && all[id] == s.manifests[id] && all[id].id == id {
      if id in journalById {
        assert JournalValid(c, s, id);
      }
    }
  }

  /** For a journaled point other than the protected one, the policy says delete exactly when it expired. */
  lemma JournalPolicy(c: Contract, s: Remote, now: int, p: Option<Id>, policy: map<Id, Decision>)
    requires JournalsValid(c, s) && forall id | id in policy :: id in s.manifests
    requires Journaled(s) <= policy.Keys && (p.Some? ==> p.value !in Journaled(s))
    requires forall id | id in policy :: policy[id] == PolicyDecision(c, s.manifests[id], now, p)
    ensures forall id | id in Journaled(s) ::
              policy[id] == DeleteExpired <==> c.Expired(s.manifests[id].frozen, now)
  {
    forall id | id in Journaled(s)
      ensures policy[id] == DeleteExpired <==> c.Expired(s.manifests[id].frozen, now)
    {
      assert JournalValid(c, s, id);
    }
  }

  lemma DecidedCompletely(c: Contract, s: Remote, now: int, p: Option<Id>,
                          policy: map<Id, Decision>, d: map<Id, Decision>)
    requires policy.Keys == s.complete.Keys + Journaled(s) && d.Keys == policy.Keys + Finalizing(s)
    requires forall id | id in policy :: id in s.manifests && policy[id] == PolicyDecision(c, s.manifests[id], now, p)
    requires forall id | id in d ::
               d[id] == if id in Finalizing(s) then DeleteFinalizing
                        else if id in Journaled(s) then DeleteResuming else policy[id]
    ensures DecisionsOf(c, s, now, p, d)
  {
  }

  /** There is only one newest verified point, so only its journal matters. */
  lemma ProtectedIntactIff(c: Contract, s: Remote, p: Option<Id>)
    requires JournalsValid(c, s) && IsProtected(s, p)
    ensures ProtectedIntact(s) <==> (p.Some? ==> p.value !in Journaled(s))
  {
    forall id | id in s.verified && IsNewest(s, id) ensures p == Some(id) {
      assert AtLeast(s, id, p.value) && AtLeast(s, p.value, id);
    }
    if p.Some? && p.value in s.deleting {
      assert JournalValid(c, s, p.value);
    }
  }

  lemma AllDecided(c: Contract, s: Remote, now: int, p: Option<Id>, ids: seq<Id>, all: map<Id, Record>,
                   points: seq<Record>, d: map<Id, Decision>)
    requires Members(ids) == all.Keys && |points| == |ids|
    requires forall i | 0 <= i < |ids| :: ids[i] in all && points[i] == all[ids[i]]
    requires forall id | id in all :: id in s.manifests && all[id] == s.manifests[id] && all[id].id == id
    requires d.Keys == set r | r in points :: r.id
    requires forall id | id in d ::
               LastRecord(points, id).Some? && d[id] == PolicyDecision(c, LastRecord(points, id).value, now, p)
    ensures d.Keys == all.Keys
    ensures forall id | id in all :: d[id] == PolicyDecision(c, s.manifests[id], now, p)
  {
    hide PolicyDecision;
    forall id | id in all ensures id in d {
      assert id in Members(ids);
      var i :| 0 <= i < |ids| && ids[i] == id;
      assert points[i] in points && points[i].id == id;
    }
    forall id | id in d ensures id in all && d[id] == PolicyDecision(c, s.manifests[id], now, p) {
      assert LastRecord(points, id).value in points;
    }
  }
}
