/**
 The review gate over a commit chain: one final code commit must be tested and approved,
 evidence-only commits may follow it, and nothing else may change the tree that was reviewed.
 */
module ReviewGate {
  import opened Basics

  type Path = string
  type Sha = nat
  type Tree = map<Path, nat>

  const EVIDENCE_PREFIX := "docs/evidence/"
  const REQUIRED_JOBS := {"quality", "database", "container"}

  datatype Status = Added | Changed | Copied | Modified | Removed | Renamed(previous: Path)

  datatype File = File(filename: Path, status: Status)

  datatype Commit = Commit(sha: Sha, parent: Sha, tree: Sha, parentTree: Sha, files: seq<File>)

  datatype Class = Noop | Metadata | Code

  predicate IsEvidence(p: Path) {
    |EVIDENCE_PREFIX| <= |p| && p[..|EVIDENCE_PREFIX|] == EVIDENCE_PREFIX
  }

  /** The paths below the evidence directory. */
  lemma EvidenceIsBelowItsDirectory(p: Path)
    ensures IsEvidence(p) <==> exists rest: string :: p == "docs/evidence/" + rest
  {
    if IsEvidence(p) {
      assert p == "docs/evidence/" + p[|EVIDENCE_PREFIX|..];
    }
    forall rest: string | p == "docs/evidence/" + rest ensures IsEvidence(p) {
      assert ("docs/evidence/" + rest)[..|EVIDENCE_PREFIX|] == "docs/evidence/";
    }
  }

  function PathsOf(f: File): seq<Path> {
    if f.status.Renamed? then [f.status.previous, f.filename] else [f.filename]
  }

  /** None when the tree and the file list contradict each other. */
  function Classify(c: Commit): Option<Class> {
    if c.tree == c.parentTree then (if c.files == [] then Some(Noop) else None)
    else if c.files == [] then None
    else if forall f | f in c.files :: forall p | p in PathsOf(f) :: IsEvidence(p) then Some(Metadata)
    else Some(Code)
  }

  /** The classes by what the commit does; its tree and its file list must agree on whether it does anything. */
  lemma ClassMeans(c: Commit)
    ensures Classify(c).None? <==> (c.tree == c.parentTree <==> c.files != [])
    ensures Classify(c) == Some(Noop) <==> c.tree == c.parentTree && c.files == []
    ensures Classify(c) == Some(Code)
            <==> c.tree != c.parentTree && exists f | f in c.files :: exists p | p in PathsOf(f) :: !IsEvidence(p)
    ensures Classify(c) == Some(Metadata)
            <==> && c.tree != c.parentTree && c.files != []
                 && forall f | f in c.files ::
                      IsEvidence(f.filename) && (f.status.Renamed? ==> IsEvidence(f.status.previous))
  {
    forall f | f in c.files
      ensures (forall p | p in PathsOf(f) :: IsEvidence(p))
              <==> IsEvidence(f.filename) && (f.status.Renamed? ==> IsEvidence(f.status.previous))
    {
      assert f.filename in PathsOf(f) && (f.status.Renamed? ==> f.status.previous in PathsOf(f));
    }
    hide IsEvidence, PathsOf;
  }

  /** The listed commits are one unbroken line that ends at the head. */
  predicate ValidChain(commits: seq<Commit>, head: Sha) {
    && commits != []
    && (forall i, j | 0 <= i < j < |commits| :: commits[i].sha != commits[j].sha)
    && (forall i | 0 < i < |commits| ::
          commits[i].parent == commits[i - 1].sha && commits[i].parentTree == commits[i - 1].tree)
    && commits[|commits| - 1].sha == head
    && forall c | c in commits :: Classify(c).Some?
  }

  predicate IsCode(commits: seq<Commit>, i: int)
    requires 0 <= i < |commits|
  {
    Classify(commits[i]) == Some(Code)
  }

  /** The last code commit. */
  predicate IsFinal(commits: seq<Commit>, i: int) {
    && 0 <= i < |commits| && IsCode(commits, i)
    && forall j | i < j < |commits| :: !IsCode(commits, j)
  }

  /** The first code commit after a position. */
  predicate IsNextCode(commits: seq<Commit>, i: int, j: int) {
    && 0 <= i < j < |commits| && IsCode(commits, j)
    && forall k | i < k < j :: !IsCode(commits, k)
  }

  // ---------------------------------------------------------------------------
  // The latest of several
  // ---------------------------------------------------------------------------

  /** When something happened, with an identifier that breaks ties. */
  datatype Stamp = Stamp(at: int, id: int) {
    predicate After(other: Stamp) {
      at > other.at || (at == other.at && id > other.id)
    }
  }

  /** The position of the greatest stamp, the first of them when several are equal; None marks what is left out. */
  function LatestIndex(stamps: seq<Option<Stamp>>): (k: Option<nat>)
    ensures k.Some? ==> k.value < |stamps| && stamps[k.value].Some?
  {
    if stamps == [] then None
    else
      var n := |stamps| - 1;
      var best := LatestIndex(stamps[..n]);
      if stamps[n].Some? && (best.None? || stamps[n].value.After(stamps[best.value].value)) then Some(n) else best
  }

  /** Nothing that counts is later than the latest, and there is a latest whenever anything counts. */
  lemma {:induction false} LatestIsGreatest(stamps: seq<Option<Stamp>>, j: nat)
    requires j < |stamps| && stamps[j].Some?
    ensures var k := LatestIndex(stamps); k.Some? && !stamps[j].value.After(stamps[k.value].value)
  {
    var n := |stamps| - 1;
    if j < n {
      LatestIsGreatest(stamps[..n], j);
    }
  }

  /** Nothing that counts is later, and nothing that counts as late comes first. */
  predicate IsFirstGreatest(stamps: seq<Option<Stamp>>, k: nat) {
    && k < |stamps| && stamps[k].Some?
    && forall j | 0 <= j < |stamps| && stamps[j].Some? ::
         !stamps[j].value.After(stamps[k].value) && (j < k ==> stamps[k].value.After(stamps[j].value))
  }

  lemma {:induction false} LatestIndexIff(stamps: seq<Option<Stamp>>)
    ensures forall k: nat :: LatestIndex(stamps) == Some(k) <==> IsFirstGreatest(stamps, k)
    ensures LatestIndex(stamps).None? <==> forall j | 0 <= j < |stamps| :: stamps[j].None?
  {
    if stamps != [] {
      var n := |stamps| - 1;
      LatestIndexIff(stamps[..n]);
      assert forall j | 0 <= j < n :: stamps[..n][j] == stamps[j];
      var latest := LatestIndex(stamps);
      if latest.Some? {
        LatestIsFirst(stamps, latest.value);
      }
    }
  }

  lemma LatestIsFirst(stamps: seq<Option<Stamp>>, k: nat)
    requires stamps != [] && LatestIndex(stamps) == Some(k)
    requires forall i: nat ::
               LatestIndex(stamps[..|stamps| - 1]) == Some(i) <==> IsFirstGreatest(stamps[..|stamps| - 1], i)
    requires LatestIndex(stamps[..|stamps| - 1]).None? <==> forall j | 0 <= j < |stamps| - 1 :: stamps[j].None?
    ensures IsFirstGreatest(stamps, k)
  {
    var n := |stamps| - 1;
    assert forall j | 0 <= j < n :: stamps[..n][j] == stamps[j];
    if k < n {
      assert IsFirstGreatest(stamps[..n], k);
    } else if LatestIndex(stamps[..n]).Some? {
      assert IsFirstGreatest(stamps[..n], LatestIndex(stamps[..n]).value);
    }
  }

  // ---------------------------------------------------------------------------
  // Reviews
  // ---------------------------------------------------------------------------

  datatype Review = Review(stamp: Stamp, commit: Sha, dismissed: bool, author: nat, verdict: Option<bool>)

  datatype Verdict = Missing | Untrusted | Indeterminate | Approved | ChangesRequested

  predicate Counts(r: Review, sha: Sha, trusted: set<nat>) {
    r.commit == sha && !r.dismissed && r.author in trusted
  }

  function ReviewStamps(reviews: seq<Review>, sha: Sha, trusted: set<nat>): seq<Option<Stamp>> {
    seq(|reviews|, i requires 0 <= i < |reviews| =>
      if Counts(reviews[i], sha, trusted) then Some(reviews[i].stamp) else None)
  }

  function FinalVerdict(reviews: seq<Review>, sha: Sha, trusted: set<nat>): Verdict {
    if !exists r | r in reviews :: r.commit == sha && !r.dismissed then Missing
    else
      match LatestIndex(ReviewStamps(reviews, sha, trusted))
      case None => Untrusted
      case Some(k) =>
        match reviews[k].verdict
        case None => Indeterminate
        case Some(approved) => if approved then Approved else ChangesRequested
  }

  /** What the latest review that counts says, if there is one and it says anything. */
  function StandingVerdict(reviews: seq<Review>, sha: Sha, trusted: set<nat>): Option<bool> {
    match LatestIndex(ReviewStamps(reviews, sha, trusted))
    case None => None
    case Some(k) => reviews[k].verdict
  }

  const STALL_THRESHOLD := 30 * 60

  /** The latest review that counts has said nothing for longer than half an hour. */
  predicate IsStalled(reviews: seq<Review>, sha: Sha, trusted: set<nat>, now: int) {
    match LatestIndex(ReviewStamps(reviews, sha, trusted))
    case None => false
    case Some(k) => reviews[k].verdict.None? && now - reviews[k].stamp.at > STALL_THRESHOLD
  }

  /** The review decides: it counts, it approves, and no review that counts is later. */
  predicate IsStandingApproval(reviews: seq<Review>, sha: Sha, trusted: set<nat>, k: nat) {
    && k < |reviews| && Counts(reviews[k], sha, trusted) && reviews[k].verdict == Some(true)
    && forall other | other in reviews && Counts(other, sha, trusted) :: !other.stamp.After(reviews[k].stamp)
  }

  lemma ApprovedByTheLatest(reviews: seq<Review>, sha: Sha, trusted: set<nat>)
    requires FinalVerdict(reviews, sha, trusted) == Approved
    ensures exists k: nat :: IsStandingApproval(reviews, sha, trusted, k)
  {
    var stamps := ReviewStamps(reviews, sha, trusted);
    var k := LatestIndex(stamps).value;
    forall other | other in reviews && Counts(other, sha, trusted)
      ensures !other.stamp.After(reviews[k].stamp)
    {
      var j: nat :| j < |reviews| && reviews[j] == other;
      LatestIsGreatest(stamps, j);
    }
    assert IsStandingApproval(reviews, sha, trusted, k);
  }

  /** The latest review that counts; of several with one stamp, the first. */
  ghost predicate IsLatestReview(reviews: seq<Review>, sha: Sha, trusted: set<nat>, k: nat) {
    && k < |reviews| && Counts(reviews[k], sha, trusted)
    && forall j | 0 <= j < |reviews| && Counts(reviews[j], sha, trusted) ::
         !reviews[j].stamp.After(reviews[k].stamp) && (j < k ==> reviews[k].stamp.After(reviews[j].stamp))
  }

  lemma LatestReviewIff(reviews: seq<Review>, sha: Sha, trusted: set<nat>)
    ensures forall k: nat ::
              LatestIndex(ReviewStamps(reviews, sha, trusted)) == Some(k) <==> IsLatestReview(reviews, sha, trusted, k)
    ensures LatestIndex(ReviewStamps(reviews, sha, trusted)).None?
            <==> forall r | r in reviews :: !Counts(r, sha, trusted)
  {
    hide LatestIndex, Counts;
    var stamps := ReviewStamps(reviews, sha, trusted);
    LatestIndexIff(stamps);
    assert |stamps| == |reviews|;
    assert forall j | 0 <= j < |stamps| ::
        stamps[j] == if Counts(reviews[j], sha, trusted) then Some(reviews[j].stamp) else None;
    hide ReviewStamps;
  }

  /**
   Every judgement of a commit's reviews is that of the latest one that counts: whether it approves, what a superseded
   commit reports, and whether it has said nothing for more than half an hour.
   */
  lemma TheLatestReviewDecides(reviews: seq<Review>, sha: Sha, trusted: set<nat>, now: int, k: nat)
    requires IsLatestReview(reviews, sha, trusted, k)
    ensures FinalVerdict(reviews, sha, trusted)
            == if reviews[k].verdict == Some(true) then Approved
               else if reviews[k].verdict == Some(false) then ChangesRequested else Indeterminate
    ensures StandingVerdict(reviews, sha, trusted) == reviews[k].verdict
    ensures IsStalled(reviews, sha, trusted, now)
            <==> reviews[k].verdict.None? && now - reviews[k].stamp.at > STALL_THRESHOLD
  {
    LatestReviewIff(reviews, sha, trusted);
    hide LatestIndex;
    assert reviews[k] in reviews;
  }

  /** If no review counts there is none that decides; the report says whether somebody else reviewed the commit. */
  lemma NoReviewDecides(reviews: seq<Review>, sha: Sha, trusted: set<nat>, now: int)
    requires forall r | r in reviews :: !Counts(r, sha, trusted)
    ensures FinalVerdict(reviews, sha, trusted)
            == if exists r | r in reviews :: r.commit == sha && !r.dismissed then Untrusted else Missing
    ensures StandingVerdict(reviews, sha, trusted).None? && !IsStalled(reviews, sha, trusted, now)
  {
    LatestReviewIff(reviews, sha, trusted);
    hide LatestIndex;
  }

  lemma {:induction false} IgnoredStamp(stamps: seq<Option<Stamp>>, s: Option<Stamp>)
    ensures s.None? ==> LatestIndex(stamps + [s]) == LatestIndex(stamps)
    ensures s.Some? && (forall x | x in stamps && x.Some? :: s.value.at > x.value.at) ==>
              LatestIndex(stamps + [s]) == Some(|stamps|)
  {
    assert (stamps + [s])[..|stamps|] == stamps;
    if LatestIndex(stamps).Some? {
      assert stamps[LatestIndex(stamps).value] in stamps;
    }
  }

  /** A review of another commit, a dismissed one or one by a stranger changes nothing that the verdict rests on. */
  lemma ForeignReviewIsIgnored(reviews: seq<Review>, sha: Sha, trusted: set<nat>, now: int, r: Review)
    requires r.commit != sha || r.dismissed || r.author !in trusted
    ensures var more := reviews + [r];
            && StandingVerdict(more, sha, trusted) == StandingVerdict(reviews, sha, trusted)
            && (IsStalled(more, sha, trusted, now) <==> IsStalled(reviews, sha, trusted, now))
            && (FinalVerdict(more, sha, trusted) == FinalVerdict(reviews, sha, trusted)
                || (FinalVerdict(reviews, sha, trusted) == Missing && FinalVerdict(more, sha, trusted) == Untrusted
                    && r.commit == sha && !r.dismissed))
  {
    assert ReviewStamps(reviews + [r], sha, trusted) == ReviewStamps(reviews, sha, trusted) + [None];
    IgnoredStamp(ReviewStamps(reviews, sha, trusted), None);
    LatestReviewIff(reviews, sha, trusted);
    hide LatestIndex, ReviewStamps;
    assert forall x | x in reviews + [r] :: x in reviews || x == r;
    assert forall x | x in reviews :: x in reviews + [r];
    assert r in reviews + [r];
  }

  /** A later review by a trusted reviewer replaces all earlier ones. */
  lemma LaterReviewDecides(reviews: seq<Review>, sha: Sha, trusted: set<nat>, r: Review)
    requires r.commit == sha && !r.dismissed && r.author in trusted
    requires forall x | x in reviews :: x.stamp.at < r.stamp.at
    ensures StandingVerdict(reviews + [r], sha, trusted) == r.verdict
    ensures FinalVerdict(reviews + [r], sha, trusted)
            == if r.verdict == Some(true) then Approved
               else if r.verdict == Some(false) then ChangesRequested else Indeterminate
  {
    var stamps := ReviewStamps(reviews, sha, trusted);
    assert ReviewStamps(reviews + [r], sha, trusted) == stamps + [Some(r.stamp)];
    forall x | x in stamps && x.Some? ensures r.stamp.at > x.value.at {
      var i: nat :| i < |reviews| && stamps[i] == x;
      assert reviews[i] in reviews;
    }
    IgnoredStamp(stamps, Some(r.stamp));
    hide LatestIndex, ReviewStamps;
    assert r in reviews + [r];
  }

  // ---------------------------------------------------------------------------
  // Continuous integration
  // ---------------------------------------------------------------------------

  datatype CiObservation = CiObservation(name: string, terminal: bool, success: bool, stamp: Stamp)

  /** A finished observation outranks an unfinished one; among equals the later wins. */
  predicate Outranks(a: CiObservation, b: CiObservation) {
    (a.terminal && !b.terminal) || (a.terminal == b.terminal && a.stamp.After(b.stamp))
  }

  function Best(observations: seq<CiObservation>, name: string): (o: Option<CiObservation>)
    ensures o.Some? ==> o.value in observations && o.value.name == name
  {
    if observations == [] then None
    else
      var n := |observations| - 1;
      var best := Best(observations[..n], name);
      var o := observations[n];
      if o.name == name && (best.None? || Outranks(o, best.value)) then Some(o) else best
  }

  lemma {:induction false} BestIsGreatest(observations: seq<CiObservation>, o: CiObservation)
    requires o in observations
    ensures var best := Best(observations, o.name); best.Some? && !Outranks(o, best.value)
  {
    var n := |observations| - 1;
    if o in observations[..n] {
      BestIsGreatest(observations[..n], o);
    }
  }

  /** The latest finished observation of a job decides it, whatever is still running. */
  lemma LatestFinishedDecides(observations: seq<CiObservation>, o: CiObservation)
    requires o in observations && o.terminal
    requires forall x | x in observations && x.name == o.name && x.terminal && x != o :: x.stamp.at < o.stamp.at
    ensures Best(observations, o.name) == Some(o)
  {
    BestIsGreatest(observations, o);
    hide Best;
  }

  /** Keep the best observation of every job. */
  method LatestObservations(observations: seq<CiObservation>) returns (latest: map<string, CiObservation>)
    ensures forall name :: name in latest <==> Best(observations, name).Some?
    ensures forall name | name in latest :: latest[name] == Best(observations, name).value
  {
    latest := map[];
    for i := 0 to |observations|
      invariant forall name :: name in latest <==> Best(observations[..i], name).Some?
      invariant forall name | name in latest :: latest[name] == Best(observations[..i], name).value
    {
      var o := observations[i];
      assert observations[..i + 1][..i] == observations[..i];
      if o.name !in latest || Outranks(o, latest[o.name]) {
        latest := latest[o.name := o];
      }
    }
    assert observations[..|observations|] == observations;
  }

  /** The observation that speaks for a job: a check run if there is one, else a commit status. */
  function Deciding(checks: seq<CiObservation>, statuses: seq<CiObservation>, job: string): Option<CiObservation> {
    if Best(checks, job).Some? then Best(checks, job) else Best(statuses, job)
  }

  ghost predicate CiGreen(checks: seq<CiObservation>, statuses: seq<CiObservation>, required: set<string>) {
    forall job | job in required :: Deciding(checks, statuses, job).Some? && Deciding(checks, statuses, job).value.success
  }

  /** Look up every required job among the check runs, then among the commit statuses. */
  method CommitCi(checks: seq<CiObservation>, statuses: seq<CiObservation>, required: set<string>)
    returns (found: map<string, CiObservation>)
    ensures found.Keys <= required
    ensures forall job | job in required ::
              Deciding(checks, statuses, job) == if job in found then Some(found[job]) else None
  {
    hide Best;
    var latestChecks := LatestObservations(checks);
    var latestStatuses := LatestObservations(statuses);
    found := map[];
    var jobs := required;
    while jobs != {}
      invariant jobs <= required && found.Keys <= required - jobs
      invariant forall job | job in required - jobs ::
                  Deciding(checks, statuses, job) == if job in found then Some(found[job]) else None
      decreases jobs
    {
      var job :| job in jobs;
      jobs := jobs - {job};
      if job in latestChecks {
        found := found[job := latestChecks[job]];
      } else if job in latestStatuses {
        found := found[job := latestStatuses[job]];
      }
    }
  }

  /** No required job is missing, and none of those found failed. */
  method CheckCi(checks: seq<CiObservation>, statuses: seq<CiObservation>, required: set<string>) returns (green: bool)
    ensures green <==> CiGreen(checks, statuses, required)
  {
    hide Deciding;
    var found := CommitCi(checks, statuses, required);
    var missing := required - found.Keys;
    var failed := set job | job in found && !found[job].success;
    green := missing == {} && failed == {};
    if green {
      assert forall job | job in required :: job !in missing && job !in failed;
    } else {
      var job :| job in missing + failed;
    }
  }

  // ---------------------------------------------------------------------------
  // Paths that must stay in the net diff
  // ---------------------------------------------------------------------------

  function ApplyFile(introduced: set<Path>, f: File): set<Path> {
    match f.status
    case Added => introduced + {f.filename}
    case Copied => introduced + {f.filename}
    case Removed => introduced - {f.filename}
    case Renamed(previous) => if previous in introduced then introduced - {previous} + {f.filename} else introduced
    case _ => introduced
  }

  function ApplyFiles(introduced: set<Path>, files: seq<File>): set<Path> {
    if files == [] then introduced
    else ApplyFile(ApplyFiles(introduced, files[..|files| - 1]), files[|files| - 1])
  }

  /** The paths that code commits introduced and, as far as the gate can tell, kept. */
  function Introduced(commits: seq<Commit>): set<Path> {
    if commits == [] then {}
    else
      var n := |commits| - 1;
      var before := Introduced(commits[..n]);
      if Classify(commits[n]) == Some(Code) then ApplyFiles(before, commits[n].files) else before
  }

  /** The loops that track them. */
  method PersistentIntroducedPaths(commits: seq<Commit>, finalSha: Sha) returns (introduced: set<Path>)
    requires exists i :: 0 <= i < |commits| && commits[i].sha == finalSha
    ensures exists n | 0 <= n < |commits| ::
              && commits[n].sha == finalSha && (forall j | 0 <= j < n :: commits[j].sha != finalSha)
              && introduced == Introduced(commits[..n + 1])
  {
    introduced := {};
    for i := 0 to |commits|
      invariant introduced == Introduced(commits[..i])
      invariant forall j | 0 <= j < i :: commits[j].sha != finalSha
    {
      var c := commits[i];
      assert commits[..i + 1][..i] == commits[..i];
      if Classify(c) == Some(Code) {
        ghost var before := introduced;
        for k := 0 to |c.files|
          invariant introduced == ApplyFiles(before, c.files[..k])
        {
          assert c.files[..k + 1][..k] == c.files[..k];
          var f := c.files[k];
          match f.status {
            case Added => introduced := introduced + {f.filename};
            case Copied => introduced := introduced + {f.filename};
            case Removed => introduced := introduced - {f.filename};
            case Renamed(previous) =>
              if previous in introduced {
                introduced := introduced - {previous} + {f.filename};
              }
            case _ =>
          }
        }
        assert c.files[..|c.files|] == c.files;
      }
      if c.sha == finalSha {
        return;
      }
    }
  }

  // ---------------------------------------------------------------------------
  // Truthful chains
  // ---------------------------------------------------------------------------

  /** A path has the same content, or is absent, in both trees. */
  predicate SameAt(a: Tree, b: Tree, p: Path) {
    (p in a <==> p in b) && (p in a && p in b ==> a[p] == b[p])
  }

  /** The commit's file list describes the step from one tree to the next. */
  ghost predicate Truthful(hash: Tree -> Sha, c: Commit, before: Tree, after: Tree) {
    && c.parentTree == hash(before) && c.tree == hash(after)
    && (forall p :: SameAt(before, after, p) || exists f | f in c.files :: p in PathsOf(f))
    && (forall f | f in c.files && (f.status.Added? || f.status.Copied? || f.status.Renamed?) :: f.filename in after)
    && (forall p | p in before && p !in after ::
          exists f | f in c.files :: (f.status.Removed? && f.filename == p) || f.status == Renamed(p))
  }

  /** `trees[0]` is the tree the chain starts from, and `trees[i + 1]` is the tree of commit i. */
  ghost predicate TruthfulChain(hash: Tree -> Sha, commits: seq<Commit>, trees: seq<Tree>) {
    && |trees| == |commits| + 1
    && forall i | 0 <= i < |commits| :: Truthful(hash, commits[i], trees[i], trees[i + 1])
  }

  /** Two consecutive trees of the chain, between these positions, differ and have one hash. */
  ghost predicate TreesCollide(hash: Tree -> Sha, trees: seq<Tree>, lo: nat, hi: nat)
    requires hi < |trees|
  {
    exists k | lo <= k < hi :: StepCollides(hash, trees, k)
  }

  ghost predicate StepCollides(hash: Tree -> Sha, trees: seq<Tree>, k: nat)
    requires k + 1 < |trees|
  {
    trees[k] != trees[k + 1] && hash(trees[k]) == hash(trees[k + 1])
  }

  /** Outside the evidence directory, a commit that is not code changes nothing, unless its two trees collide. */
  lemma NonCodeKeepsReviewedTree(hash: Tree -> Sha, c: Commit, before: Tree, after: Tree, p: Path)
    requires Truthful(hash, c, before, after) && Classify(c).Some? && Classify(c) != Some(Code) && !IsEvidence(p)
    ensures SameAt(before, after, p) || (before != after && hash(before) == hash(after))
  {
    if Classify(c) == Some(Noop) {
      assert hash(before) == hash(after);
    }
  }

  /** One step of the chain by a commit that is not code. */
  lemma StepKeepsReviewedTree(hash: Tree -> Sha, commits: seq<Commit>, trees: seq<Tree>, j: nat, p: Path)
    requires TruthfulChain(hash, commits, trees) && j < |commits| && !IsEvidence(p)
    requires Classify(commits[j]).Some? && !IsCode(commits, j)
    ensures SameAt(trees[j], trees[j + 1], p) || StepCollides(hash, trees, j)
  {
    assert Truthful(hash, commits[j], trees[j], trees[j + 1]);
    NonCodeKeepsReviewedTree(hash, commits[j], trees[j], trees[j + 1], p);
  }

  /** From the final code commit to the head, the tree outside the evidence directory stays the same. */
  lemma {:induction false} HeadKeepsReviewedTree(
    hash: Tree -> Sha, commits: seq<Commit>, trees: seq<Tree>, i: nat, j: nat, p: Path)
    requires TruthfulChain(hash, commits, trees) && i <= j < |commits| && !IsEvidence(p)
    requires forall c | c in commits :: Classify(c).Some?
    requires forall k | i < k < |commits| :: !IsCode(commits, k)
    ensures SameAt(trees[i + 1], trees[j + 1], p) || TreesCollide(hash, trees, i + 1, j + 1)
    decreases j
  {
    hide Truthful, Classify, IsEvidence, StepCollides;
    if i < j {
      HeadKeepsReviewedTree(hash, commits, trees, i, j - 1, p);
      assert commits[j] in commits && !IsCode(commits, j);
      StepKeepsReviewedTree(hash, commits, trees, j, p);
      TreesCollideLater(hash, trees, i + 1, j);
    }
  }

  lemma TreesCollideLater(hash: Tree -> Sha, trees: seq<Tree>, lo: nat, hi: nat)
    requires hi + 1 < |trees|
    ensures TreesCollide(hash, trees, lo, hi) ==> TreesCollide(hash, trees, lo, hi + 1)
    ensures lo <= hi && StepCollides(hash, trees, hi) ==> TreesCollide(hash, trees, lo, hi + 1)
  {}

  /** The entry takes a path out of the tracked set. */
  predicate Drops(f: File, p: Path) {
    (f.status.Removed? && f.filename == p) || f.status == Renamed(p)
  }

  /** A path that is gone after the commit is tracked only as long as no entry has dropped it. */
  lemma {:induction false} GonePathsAreDropped(introduced: set<Path>, files: seq<File>, p: Path)
    requires forall f | f in files && (f.status.Added? || f.status.Copied? || f.status.Renamed?) :: f.filename != p
    ensures p in ApplyFiles(introduced, files) ==> p in introduced && forall f | f in files :: !Drops(f, p)
  {
    if files != [] {
      var n := |files| - 1;
      assert forall f | f in files[..n] :: f in files;
      assert files[n] in files;
      GonePathsAreDropped(introduced, files[..n], p);
      assert forall f | f in files :: f in files[..n] || f == files[n];
    }
  }

  /** On every truthful chain, the tracked paths outside the evidence directory are in the tree. */
  lemma {:induction false} IntroducedPathsExist(hash: Tree -> Sha, commits: seq<Commit>, trees: seq<Tree>, p: Path)
    requires TruthfulChain(hash, commits, trees) && forall c | c in commits :: Classify(c).Some?
    requires p in Introduced(commits) && !IsEvidence(p)
    ensures p in trees[|commits|] || TreesCollide(hash, trees, 0, |commits|)
  {
    var n := |commits| - 1;
    var c, before, after := commits[n], trees[n], trees[n + 1];
    assert commits[n] in commits && forall x | x in commits[..n] :: x in commits;
    assert TruthfulChain(hash, commits[..n], trees[..n + 1]);
    assert Truthful(hash, c, before, after);
    if p !in after {
      hide StepCollides;
      TreesCollideLater(hash, trees, 0, n);
      EarlierTreesCollide(hash, trees, n);
      if Classify(c) == Some(Code) {
        GonePathsAreDropped(Introduced(commits[..n]), c.files, p);
        IntroducedPathsExist(hash, commits[..n], trees[..n + 1], p);
      } else {
        IntroducedPathsExist(hash, commits[..n], trees[..n + 1], p);
        StepKeepsReviewedTree(hash, commits, trees, n, p);
      }
    }
  }

  lemma EarlierTreesCollide(hash: Tree -> Sha, trees: seq<Tree>, n: nat)
    requires n < |trees|
    ensures TreesCollide(hash, trees[..n + 1], 0, n) <==> TreesCollide(hash, trees, 0, n)
  {
    var earlier := trees[..n + 1];
    assert forall k: nat | k < n :: StepCollides(hash, earlier, k) == StepCollides(hash, trees, k);
  }

  // ---------------------------------------------------------------------------
  // Cumulative evidence
  // ---------------------------------------------------------------------------

  const GITHUB_ACTIONS_APP_ID := 15368
  const GITHUB_ACTIONS_BOT_ID := 41898282

  datatype Source = Compare | EvidenceCheck | EvidenceStatus

  datatype Issuer = Server | App | User

  datatype Evidence = Evidence(
    base: Sha, final: Sha, attested: Sha, attestedParent: Option<Sha>, mergeBase: Sha, paths: set<Path>, success: bool,
    source: Source, issuer: Issuer, issuerId: nat, stamp: Stamp, complete: bool, count: int)

  datatype PullRequest = PullRequest(base: Sha, head: Sha)

  datatype GateError = NoTrustedReviewer | BadChain | WrongMergeBase | WrongCommitCount | PullRequestMoved

  predicate IsTrusted(e: Evidence) {
    match e.source
    case Compare => e.issuer == Server && e.issuerId == 0
    case EvidenceCheck => e.issuer == App && e.issuerId == GITHUB_ACTIONS_APP_ID
    case EvidenceStatus => e.issuer == User && e.issuerId == GITHUB_ACTIONS_BOT_ID
  }

  predicate IsExact(e: Evidence, pr: PullRequest, final: Sha) {
    && IsTrusted(e) && e.base == pr.base && e.final == final
    && (e.attested == final || (e.attested == pr.head && e.attestedParent == Some(final)))
  }

  function ExactStamps(evidence: seq<Evidence>, pr: PullRequest, final: Sha, compareOnly: bool): seq<Option<Stamp>> {
    seq(|evidence|, i requires 0 <= i < |evidence| =>
      if IsExact(evidence[i], pr, final) && (compareOnly ==> evidence[i].source == Compare)
      then Some(evidence[i].stamp) else None)
  }

  /** One observation: acceptable, a gap, or a contradiction with the chain. */
  function Examine(e: Evidence, commits: seq<Commit>, n: nat): Result<bool, GateError>
    requires n < |commits|
  {
    if !e.success || !e.complete then Ok(false)
    else if e.mergeBase != commits[0].parent then Err(WrongMergeBase)
    else if e.count != n + 1 then Err(WrongCommitCount)
    else Ok(true)
  }

  /** Ok(false) is a gap in the evidence for the final code commit, which is at position n. */
  function EvidenceVerdict(
    evidence: seq<Evidence>, pr: PullRequest, commits: seq<Commit>, n: nat, introduced: set<Path>): Result<bool, GateError>
    requires n < |commits|
  {
    var final := commits[n].sha;
    var newest := LatestIndex(ExactStamps(evidence, pr, final, false));
    var compare := LatestIndex(ExactStamps(evidence, pr, final, true));
    if newest.None? || compare.None? then Ok(false)
    else
      var authoritative, selected := evidence[compare.value], evidence[newest.value];
      var first := Examine(authoritative, commits, n);
      if first != Ok(true) then first
      else if !(introduced <= authoritative.paths) then Ok(false)
      else
        var second := Examine(selected, commits, n);
        if second != Ok(true) then second
        else Ok(selected.source == Compare || selected.paths == authoritative.paths)
  }

  /** A comparison by the server itself that covers the chain up to the final commit and every tracked path. */
  predicate Corroborates(e: Evidence, pr: PullRequest, commits: seq<Commit>, n: nat, introduced: set<Path>) {
    && n < |commits| && e.source == Compare && IsExact(e, pr, commits[n].sha) && e.success && e.complete
    && e.mergeBase == commits[0].parent && e.count == n + 1 && introduced <= e.paths
  }

  /** An observation that neither succeeded nor lists everything proves nothing. */
  predicate ProvesNothing(e: Evidence) {
    !e.success || !e.complete
  }

  /** A complete and successful observation of another chain: another merge base, or else another number of commits. */
  predicate Contradicts(e: Evidence, commits: seq<Commit>, n: nat, why: GateError)
    requires n < |commits|
  {
    && e.success && e.complete
    && (|| (why == WrongMergeBase && e.mergeBase != commits[0].parent)
        || (why == WrongCommitCount && e.mergeBase == commits[0].parent && e.count != n + 1))
  }

  /** A complete and successful observation of this chain up to the commit at position n. */
  predicate Describes(e: Evidence, commits: seq<Commit>, n: nat)
    requires n < |commits|
  {
    e.success && e.complete && e.mergeBase == commits[0].parent && e.count == n + 1
  }

  /** The latest exact observation, or the latest exact comparison; of several with one stamp, the first. */
  ghost predicate IsLatestExact(evidence: seq<Evidence>, pr: PullRequest, final: Sha, compareOnly: bool, k: nat) {
    IsFirstGreatest(ExactStamps(evidence, pr, final, compareOnly), k)
  }

  /** Which means: exact, of the wanted source, not older than any other such, and before those as late. */
  lemma LatestExactMeans(evidence: seq<Evidence>, pr: PullRequest, final: Sha, compareOnly: bool, k: nat)
    ensures IsLatestExact(evidence, pr, final, compareOnly, k)
            <==> && k < |evidence| && IsExact(evidence[k], pr, final) && (compareOnly ==> evidence[k].source == Compare)
                 && forall j | 0 <= j < |evidence| && IsExact(evidence[j], pr, final)
                               && (compareOnly ==> evidence[j].source == Compare) ::
                      && !evidence[j].stamp.After(evidence[k].stamp)
                      && (j < k ==> evidence[k].stamp.After(evidence[j].stamp))
  {
    var stamps := ExactStamps(evidence, pr, final, compareOnly);
    assert |stamps| == |evidence|;
    assert forall j | 0 <= j < |stamps| ::
        stamps[j] == if IsExact(evidence[j], pr, final) && (compareOnly ==> evidence[j].source == Compare)
                     then Some(evidence[j].stamp) else None;
  }

  /** Both are there as soon as one exact comparison is. */
  lemma LatestExactExist(evidence: seq<Evidence>, pr: PullRequest, final: Sha, e: Evidence)
    requires e in evidence && e.source == Compare && IsExact(e, pr, final)
    ensures exists c: nat, l: nat ::
              IsLatestExact(evidence, pr, final, true, c) && IsLatestExact(evidence, pr, final, false, l)
  {
    var i: nat :| i < |evidence| && evidence[i] == e;
    var comparisons, all := ExactStamps(evidence, pr, final, true), ExactStamps(evidence, pr, final, false);
    LatestIndexIff(comparisons);
    LatestIndexIff(all);
    assert comparisons[i].Some? && all[i].Some?;
    assert IsLatestExact(evidence, pr, final, true, LatestIndex(comparisons).value);
    assert IsLatestExact(evidence, pr, final, false, LatestIndex(all).value);
  }

  /**
   The verdict, from the latest exact comparison `c` and the latest exact observation `l` of any source. It is accepted
   exactly when `c` covers the chain and every tracked path and `l` describes the same chain and, unless it is a
   comparison, names the same paths. It is an error exactly when one of them contradicts the chain, `l` being looked at
   only after `c` has passed. In every other case it is a gap.
   */
  lemma EvidenceDecides(
    evidence: seq<Evidence>, pr: PullRequest, commits: seq<Commit>, n: nat, introduced: set<Path>, c: nat, l: nat)
    requires n < |commits|
    requires IsLatestExact(evidence, pr, commits[n].sha, true, c)
    requires IsLatestExact(evidence, pr, commits[n].sha, false, l)
    ensures c < |evidence| && l < |evidence|
    ensures EvidenceVerdict(evidence, pr, commits, n, introduced) == Ok(true)
            <==> && Corroborates(evidence[c], pr, commits, n, introduced) && Describes(evidence[l], commits, n)
                 && (evidence[l].source == Compare || evidence[l].paths == evidence[c].paths)
    ensures forall why ::
              (EvidenceVerdict(evidence, pr, commits, n, introduced) == Err(why)
               <==> || Contradicts(evidence[c], commits, n, why)
                    || (&& Corroborates(evidence[c], pr, commits, n, introduced)
                        && Contradicts(evidence[l], commits, n, why)))
    ensures EvidenceVerdict(evidence, pr, commits, n, introduced) == Ok(false)
            <==> || ProvesNothing(evidence[c])
                 || (Describes(evidence[c], commits, n) && !(introduced <= evidence[c].paths))
                 || (&& Corroborates(evidence[c], pr, commits, n, introduced)
                     && (|| ProvesNothing(evidence[l])
                         || (&& Describes(evidence[l], commits, n) && evidence[l].source != Compare
                             && evidence[l].paths != evidence[c].paths)))
  {
    LatestExactMeans(evidence, pr, commits[n].sha, true, c);
    LatestIndexIff(ExactStamps(evidence, pr, commits[n].sha, true));
    LatestIndexIff(ExactStamps(evidence, pr, commits[n].sha, false));
    hide LatestIndex, ExactStamps, IsFirstGreatest;
  }

  /** Without an exact comparison there is a gap, whatever else was observed. */
  lemma NoComparisonIsAGap(evidence: seq<Evidence>, pr: PullRequest, commits: seq<Commit>, n: nat, introduced: set<Path>)
    requires n < |commits| && forall e | e in evidence && e.source == Compare :: !IsExact(e, pr, commits[n].sha)
    ensures EvidenceVerdict(evidence, pr, commits, n, introduced) == Ok(false)
  {
    LatestIndexIff(ExactStamps(evidence, pr, commits[n].sha, true));
  }

  /** An observation by an unknown issuer, of another base or commit, or attested for another commit, changes nothing. */
  lemma ForeignEvidenceIsIgnored(
    evidence: seq<Evidence>, pr: PullRequest, commits: seq<Commit>, n: nat, introduced: set<Path>, e: Evidence)
    requires n < |commits|
    requires || (e.source == Compare && (e.issuer != Server || e.issuerId != 0))
             || (e.source == EvidenceCheck && (e.issuer != App || e.issuerId != 15368))
             || (e.source == EvidenceStatus && (e.issuer != User || e.issuerId != 41898282))
             || e.base != pr.base || e.final != commits[n].sha
             || (e.attested != e.final && !(e.attested == pr.head && e.attestedParent == Some(e.final)))
    ensures EvidenceVerdict(evidence + [e], pr, commits, n, introduced)
            == EvidenceVerdict(evidence, pr, commits, n, introduced)
  {
    var final := commits[n].sha;
    forall compareOnly: bool
      ensures ExactStamps(evidence + [e], pr, final, compareOnly) == ExactStamps(evidence, pr, final, compareOnly) + [None]
    {
      assert !IsExact(e, pr, final);
    }
    IgnoredStamp(ExactStamps(evidence, pr, final, true), None);
    IgnoredStamp(ExactStamps(evidence, pr, final, false), None);
    hide LatestIndex, ExactStamps, IsExact, Examine;
  }

  /** One comparison by the server that covers the chain is enough. */
  lemma OneComparisonSuffices(
    pr: PullRequest, commits: seq<Commit>, n: nat, introduced: set<Path>, e: Evidence)
    requires n < |commits| && e.source == Compare && e.issuer == Server && e.issuerId == 0
    requires e.base == pr.base && e.final == commits[n].sha
    requires e.attested == e.final || (e.attested == pr.head && e.attestedParent == Some(e.final))
    requires e.success && e.complete && e.mergeBase == commits[0].parent && e.count == n + 1 && introduced <= e.paths
    ensures EvidenceVerdict([e], pr, commits, n, introduced) == Ok(true)
  {
    var all, compare := ExactStamps([e], pr, commits[n].sha, false), ExactStamps([e], pr, commits[n].sha, true);
    assert all == [Some(e.stamp)] && compare == [Some(e.stamp)];
    assert [Some(e.stamp)][..0] == [];
  }

  lemma OnlyOneLatest(
    evidence: seq<Evidence>, pr: PullRequest, final: Sha, compareOnly: bool, k: nat, other: nat)
    requires IsLatestExact(evidence, pr, final, compareOnly, k) && IsLatestExact(evidence, pr, final, compareOnly, other)
    ensures k == other
  {
    LatestIndexIff(ExactStamps(evidence, pr, final, compareOnly));
  }

  /** The latest comparison covers the chain and every tracked path, and the latest observation agrees with it. */
  ghost predicate EvidenceStands(
    evidence: seq<Evidence>, pr: PullRequest, commits: seq<Commit>, n: nat, introduced: set<Path>)
    requires n < |commits|
  {
    exists c: nat, l: nat ::
      && IsLatestExact(evidence, pr, commits[n].sha, true, c)
      && IsLatestExact(evidence, pr, commits[n].sha, false, l)
      && c < |evidence| && l < |evidence|
      && Corroborates(evidence[c], pr, commits, n, introduced) && Describes(evidence[l], commits, n)
      && (evidence[l].source == Compare || evidence[l].paths == evidence[c].paths)
  }

  lemma EvidenceAcceptedIff(evidence: seq<Evidence>, pr: PullRequest, commits: seq<Commit>, n: nat, introduced: set<Path>)
    requires n < |commits|
    ensures EvidenceVerdict(evidence, pr, commits, n, introduced) == Ok(true)
            <==> EvidenceStands(evidence, pr, commits, n, introduced)
  {
    hide EvidenceVerdict, IsLatestExact, IsExact, Describes, Corroborates;
    if e :| e in evidence && e.source == Compare && IsExact(e, pr, commits[n].sha) {
      LatestExactExist(evidence, pr, commits[n].sha, e);
      var c: nat, l: nat :|
        IsLatestExact(evidence, pr, commits[n].sha, true, c) && IsLatestExact(evidence, pr, commits[n].sha, false, l);
      EvidenceDecides(evidence, pr, commits, n, introduced, c, l);
      forall c': nat, l': nat
        | IsLatestExact(evidence, pr, commits[n].sha, true, c') && IsLatestExact(evidence, pr, commits[n].sha, false, l')
        ensures c' == c && l' == l
      {
        OnlyOneLatest(evidence, pr, commits[n].sha, true, c, c');
        OnlyOneLatest(evidence, pr, commits[n].sha, false, l, l');
      }
    } else {
      NoComparisonIsAGap(evidence, pr, commits, n, introduced);
      forall c: nat ensures !IsLatestExact(evidence, pr, commits[n].sha, true, c) {
        LatestExactMeans(evidence, pr, commits[n].sha, true, c);
        assert c < |evidence| ==> evidence[c] in evidence;
      }
    }
  }

  /** So accepted evidence rests on a comparison that covers the chain, and no exact comparison is later. */
  lemma AcceptedEvidence(evidence: seq<Evidence>, pr: PullRequest, commits: seq<Commit>, n: nat, introduced: set<Path>)
    requires n < |commits| && EvidenceVerdict(evidence, pr, commits, n, introduced) == Ok(true)
    ensures exists e | e in evidence ::
              && Corroborates(e, pr, commits, n, introduced)
              && (forall x | x in evidence && x.source == Compare && IsExact(x, pr, commits[n].sha) :: !x.stamp.After(e.stamp))
  {
    hide EvidenceVerdict, IsLatestExact, IsExact, Describes, Corroborates;
    EvidenceAcceptedIff(evidence, pr, commits, n, introduced);
    var c: nat, l: nat :|
      IsLatestExact(evidence, pr, commits[n].sha, true, c) && IsLatestExact(evidence, pr, commits[n].sha, false, l)
      && c < |evidence| && Corroborates(evidence[c], pr, commits, n, introduced);
    LatestExactMeans(evidence, pr, commits[n].sha, true, c);
    assert evidence[c] in evidence;
  }

  // ---------------------------------------------------------------------------
  // The gate
  // ---------------------------------------------------------------------------

  datatype Row = Exempt(sha: Sha)
               | Superseded(sha: Sha, successor: Sha, prior: Option<bool>)
               | Final(sha: Sha, green: bool, verdict: Verdict, evident: bool, stalled: bool)

  predicate IsGap(row: Row) {
    row.Final? && !(row.green && row.verdict == Approved && row.evident)
  }

  datatype Facts = Facts(
    reviews: seq<Review>, checks: seq<CiObservation>, statuses: seq<CiObservation>, evidence: seq<Evidence>, now: int)

  /** What the report must say about the commit at position i. */
  ghost predicate RowFits(pr: PullRequest, commits: seq<Commit>, facts: Facts, trusted: set<nat>, i: int, row: Row)
    requires 0 <= i < |commits|
  {
    && row.sha == commits[i].sha
    && (!IsCode(commits, i) ==> row.Exempt?)
    && (IsFinal(commits, i) ==>
          && row.Final?
          && (row.green <==> CiGreen(facts.checks, facts.statuses, REQUIRED_JOBS))
          && row.verdict == FinalVerdict(facts.reviews, commits[i].sha, trusted)
          && row.stalled == IsStalled(facts.reviews, commits[i].sha, trusted, facts.now)
          && EvidenceVerdict(facts.evidence, pr, commits, i, Introduced(commits[..i + 1])) == Ok(row.evident))
    && (IsCode(commits, i) && !IsFinal(commits, i) ==>
          && row.Superseded? && row.prior == StandingVerdict(facts.reviews, commits[i].sha, trusted)
          && exists j | i < j < |commits| :: IsNextCode(commits, i, j) && commits[j].sha == row.successor)
  }

  ghost predicate ReportFits(
    pr: PullRequest, commits: seq<Commit>, facts: Facts, trusted: set<nat>, rows: seq<Row>)
  {
    |rows| == |commits| && forall i | 0 <= i < |commits| :: RowFits(pr, commits, facts, trusted, i, rows[i])
  }

  /** Walk back over the commits, remembering the code commit that comes next. */
  method NextCode(commits: seq<Commit>) returns (next: map<int, Sha>, final: Option<nat>)
    ensures final.Some? ==> IsFinal(commits, final.value)
    ensures final.None? ==> forall i | 0 <= i < |commits| :: !IsCode(commits, i)
    ensures forall i | 0 <= i < |commits| && IsCode(commits, i) && !IsFinal(commits, i) ::
              i in next && exists j | i < j < |commits| :: IsNextCode(commits, i, j) && commits[j].sha == next[i]
  {
    hide IsCode;
    next, final := map[], None;
    var pending: Option<nat> := None;
    for index := |commits| downto 0
      invariant pending.None? ==> final.None? && forall i | index <= i < |commits| :: !IsCode(commits, i)
      invariant pending.Some? ==>
                  && index <= pending.value < |commits| && IsCode(commits, pending.value)
                  && (forall i | index <= i < pending.value :: !IsCode(commits, i))
                  && final.Some? && IsFinal(commits, final.value)
      invariant forall i | index <= i < |commits| && IsCode(commits, i) && !IsFinal(commits, i) ::
                  i in next && exists j | i < j < |commits| :: IsNextCode(commits, i, j) && commits[j].sha == next[i]
    {
      if IsCode(commits, index) {
        if pending.Some? {
          next := next[index := commits[pending.value].sha];
          assert IsNextCode(commits, index, pending.value);
        } else {
          final := Some(index);
        }
        pending := Some(index);
      }
    }
  }

  /** One row for every commit of the chain. */
  method JudgeCommits(
    pr: PullRequest, commits: seq<Commit>, facts: Facts, trusted: set<nat>, next: map<int, Sha>, final: Option<nat>,
    green: bool, evident: bool)
    returns (rows: seq<Row>)
    requires forall i | 0 <= i < |commits| && IsCode(commits, i) && !IsFinal(commits, i) ::
               i in next && exists j | i < j < |commits| :: IsNextCode(commits, i, j) && commits[j].sha == next[i]
    requires final.None? ==> forall i | 0 <= i < |commits| :: !IsCode(commits, i)
    requires final.Some? ==>
               && IsFinal(commits, final.value) && (green <==> CiGreen(facts.checks, facts.statuses, REQUIRED_JOBS))
               && EvidenceVerdict(facts.evidence, pr, commits, final.value, Introduced(commits[..final.value + 1]))
                  == Ok(evident)
    ensures ReportFits(pr, commits, facts, trusted, rows)
  {
    hide LatestIndex, EvidenceVerdict, FinalVerdict, Introduced, CiGreen, StandingVerdict, IsStalled;
    hide IsNextCode, Classify;
    rows := [];
    for i := 0 to |commits|
      invariant |rows| == i
      invariant forall k | 0 <= k < i :: RowFits(pr, commits, facts, trusted, k, rows[k])
    {
      var sha := commits[i].sha;
      assert final.Some? && IsFinal(commits, i) ==> final.value == i;
      var row :=
        if Classify(commits[i]) != Some(Code) then Exempt(sha)
        else if final != Some(i) then Superseded(sha, next[i], StandingVerdict(facts.reviews, sha, trusted))
        else Final(sha, green, FinalVerdict(facts.reviews, sha, trusted), evident,
                   IsStalled(facts.reviews, sha, trusted, facts.now));
      assert RowFits(pr, commits, facts, trusted, i, row);
      rows := rows + [row];
    }
  }

  /** Read the chain and the facts, judge every commit, and check that nothing moved meanwhile. */
  method Evaluate(
    pr: PullRequest, commits: seq<Commit>, facts: Facts, trusted: set<nat>, end: PullRequest)
    returns (report: Result<seq<Row>, GateError>, passed: bool)
    ensures report.Ok? ==>
              && trusted != {} && ValidChain(commits, pr.head) && end == pr
              && ReportFits(pr, commits, facts, trusted, report.value)
              && (passed <==> forall row | row in report.value && row.Final? ::
                                row.green && row.verdict == Approved && row.evident)
    ensures report.Err? ==> !passed
    ensures report.Err? ==>
              || trusted == {} || !ValidChain(commits, pr.head) || end != pr
              || exists i | 0 <= i < |commits| :: IsFinal(commits, i)
                   && EvidenceVerdict(facts.evidence, pr, commits, i, Introduced(commits[..i + 1])).Err?
  {
    hide LatestIndex, EvidenceVerdict, FinalVerdict, Introduced, CiGreen, StandingVerdict, IsStalled;
    hide IsNextCode, RowFits;
    passed := false;
    if trusted == {} {
      return Err(NoTrustedReviewer), false;
    }
    if !ValidChain(commits, pr.head) {
      return Err(BadChain), false;
    }
    var next, final := NextCode(commits);
    var evident, green := false, false;
    if final.Some? {
      green := CheckCi(facts.checks, facts.statuses, REQUIRED_JOBS);
      var introduced := PersistentIntroducedPaths(commits, commits[final.value].sha);
      var judged := EvidenceVerdict(facts.evidence, pr, commits, final.value, introduced);
      if judged.Err? {
        return Err(judged.error), false;
      }
      evident := judged.value;
    }
    var rows := JudgeCommits(pr, commits, facts, trusted, next, final, green, evident);
    if end != pr {
      return Err(PullRequestMoved), false;
    }
    passed := forall row | row in rows :: !IsGap(row);
    return Ok(rows), passed;
  }

  // ---------------------------------------------------------------------------
  // What a pass means
  // ---------------------------------------------------------------------------

  /**
   A pass with a final code commit: outside the evidence directory the head has exactly the tree of that commit, and
   for that commit every required job succeeded, a trusted review stands that approves it, and the comparison by the
   server covers it. Only two consecutive trees after that commit that differ and have one hash can spoil the first part.
   */
  lemma PassingHeadIsReviewed(
    hash: Tree -> Sha, pr: PullRequest, commits: seq<Commit>, trees: seq<Tree>, facts: Facts, trusted: set<nat>,
    rows: seq<Row>, n: nat)
    requires ValidChain(commits, pr.head) && TruthfulChain(hash, commits, trees) && IsFinal(commits, n)
    requires ReportFits(pr, commits, facts, trusted, rows) && forall row | row in rows :: !IsGap(row)
    ensures TreesCollide(hash, trees, n + 1, |commits|)
            || forall p | !IsEvidence(p) :: SameAt(trees[n + 1], trees[|commits|], p)
    ensures CiGreen(facts.checks, facts.statuses, REQUIRED_JOBS)
    ensures exists k: nat :: IsStandingApproval(facts.reviews, commits[n].sha, trusted, k)
    ensures EvidenceStands(facts.evidence, pr, commits, n, Introduced(commits[..n + 1]))
    ensures exists e | e in facts.evidence :: Corroborates(e, pr, commits, n, Introduced(commits[..n + 1]))
  {
    hide Introduced, CiGreen, EvidenceVerdict, FinalVerdict, Corroborates, IsStandingApproval, EvidenceStands;
    EvidenceAcceptedIff(facts.evidence, pr, commits, n, Introduced(commits[..n + 1]));
    assert rows[n] in rows && RowFits(pr, commits, facts, trusted, n, rows[n]);
    ApprovedByTheLatest(facts.reviews, commits[n].sha, trusted);
    AcceptedEvidence(facts.evidence, pr, commits, n, Introduced(commits[..n + 1]));
    forall p | !IsEvidence(p)
      ensures TreesCollide(hash, trees, n + 1, |commits|) || SameAt(trees[n + 1], trees[|commits|], p)
    {
      HeadKeepsReviewedTree(hash, commits, trees, n, |commits| - 1, p);
    }
  }

  /** Without any code commit a pass needs nothing, and the head still has the base's tree outside the evidence directory. */
  lemma {:induction false} NoCodeNoChange(
    hash: Tree -> Sha, commits: seq<Commit>, trees: seq<Tree>, i: nat, p: Path)
    requires TruthfulChain(hash, commits, trees) && i <= |commits| && !IsEvidence(p)
    requires forall c | c in commits :: Classify(c).Some? && Classify(c) != Some(Code)
    ensures SameAt(trees[0], trees[i], p) || TreesCollide(hash, trees, 0, i)
  {
    hide Truthful, Classify, IsEvidence, StepCollides;
    if 0 < i {
      NoCodeNoChange(hash, commits, trees, i - 1, p);
      assert commits[i - 1] in commits;
      StepKeepsReviewedTree(hash, commits, trees, i - 1, p);
      TreesCollideLater(hash, trees, 0, i - 1);
    }
  }

  /** The comparison names exactly the paths at which the two trees differ. */
  ghost predicate HonestCompare(paths: set<Path>, base: Tree, final: Tree) {
    forall p :: p in paths <==> !SameAt(base, final, p)
  }

  /** The file entries of the code commits, in order. */
  function Entries(commits: seq<Commit>): seq<File> {
    if commits == [] then []
    else
      var n := |commits| - 1;
      Entries(commits[..n]) + if Classify(commits[n]) == Some(Code) then commits[n].files else []
  }

  predicate NotDroppedSince(entries: seq<File>, k: int, p: Path)
    requires -1 <= k < |entries|
  {
    forall i | k < i < |entries| :: !Drops(entries[i], p)
  }

  /** The entry at k brings the path in: it adds or copies it, or renames to it a path that was brought in and kept. */
  predicate BringsIn(entries: seq<File>, k: nat, p: Path)
    requires k < |entries|
    decreases k
  {
    && entries[k].filename == p
    && (entries[k].status.Added? || entries[k].status.Copied?
        || (entries[k].status.Renamed?
            && exists j | 0 <= j < k ::
                 BringsIn(entries, j, entries[k].status.previous)
                 && NotDroppedSince(entries[..k], j, entries[k].status.previous)))
  }

  /** Some entry brings the path in and no later one drops it. */
  predicate BroughtInAndKept(entries: seq<File>, p: Path) {
    exists k | 0 <= k < |entries| :: BringsIn(entries, k, p) && NotDroppedSince(entries, k, p)
  }

  lemma {:induction false} BringsInEarlier(entries: seq<File>, n: nat, k: nat, p: Path)
    requires k < n <= |entries|
    ensures BringsIn(entries[..n], k, p) <==> BringsIn(entries, k, p)
    decreases k
  {
    if entries[k].status.Renamed? {
      assert entries[..n][..k] == entries[..k];
      forall j: nat | j < k
        ensures BringsIn(entries[..n], j, entries[k].status.previous) <==> BringsIn(entries, j, entries[k].status.previous)
      {
        BringsInEarlier(entries, n, j, entries[k].status.previous);
      }
    }
  }

  lemma {:induction false} ApplyAppended(introduced: set<Path>, a: seq<File>, b: seq<File>)
    ensures ApplyFiles(introduced, a + b) == ApplyFiles(ApplyFiles(introduced, a), b)
  {
    if b == [] {
      assert a + b == a;
    } else {
      assert (a + b)[..|a + b| - 1] == a + b[..|b| - 1];
      ApplyAppended(introduced, a, b[..|b| - 1]);
    }
  }

  lemma {:induction false} IntroducedByEntries(commits: seq<Commit>)
    ensures Introduced(commits) == ApplyFiles({}, Entries(commits))
  {
    if commits != [] {
      var n := |commits| - 1;
      IntroducedByEntries(commits[..n]);
      if Classify(commits[n]) == Some(Code) {
        ApplyAppended({}, Entries(commits[..n]), commits[n].files);
      } else {
        assert Entries(commits[..n]) + [] == Entries(commits[..n]);
      }
    }
  }

  /** The tracked set, read off the entries: a path is in it exactly when it was brought in and kept. */
  lemma {:induction false} TrackedIff(entries: seq<File>, p: Path)
    ensures p in ApplyFiles({}, entries) <==> BroughtInAndKept(entries, p)
    decreases |entries|
  {
    if entries != [] {
      var n := |entries| - 1;
      var before, last := entries[..n], entries[n];
      TrackedIff(before, p);
      if last.status.Renamed? {
        TrackedIff(before, last.status.previous);
      }
      forall k: nat, q | k < n
        ensures BringsIn(before, k, q) <==> BringsIn(entries, k, q)
        ensures NotDroppedSince(entries, k, q) <==> NotDroppedSince(before, k, q) && !Drops(last, q)
      {
        BringsInEarlier(entries, n, k, q);
        assert Drops(entries[n], q) == Drops(last, q);
      }
      LastEntry(entries, p);
    }
  }

  lemma LastEntry(entries: seq<File>, p: Path)
    requires entries != []
    requires var n := |entries| - 1;
             && (forall k: nat, q | k < n ::
                   && (BringsIn(entries[..n], k, q) <==> BringsIn(entries, k, q))
                   && (NotDroppedSince(entries, k, q) <==> NotDroppedSince(entries[..n], k, q) && !Drops(entries[n], q)))
    ensures var n := |entries| - 1;
            BroughtInAndKept(entries, p)
            <==> BringsIn(entries, n, p) || (BroughtInAndKept(entries[..n], p) && !Drops(entries[n], p))
    ensures var n := |entries| - 1;
            BringsIn(entries, n, p)
            <==> && entries[n].filename == p
                 && (entries[n].status.Added? || entries[n].status.Copied?
                     || (entries[n].status.Renamed? && BroughtInAndKept(entries[..n], entries[n].status.previous)))
  {
    var n := |entries| - 1;
    if BringsIn(entries, n, p) {
      assert NotDroppedSince(entries, n, p);
    }
  }

  /**
   An honest comparison is blamed for leaving out a path exactly when the code commits brought that path in and kept it,
   and either the path has the same content at the base, or neither the base nor the final commit has it, which happens
   only to an evidence path that another commit removed, or where two consecutive trees differ and have one hash.
   */
  lemma HonestCompareIsBlamedIff(
    hash: Tree -> Sha, commits: seq<Commit>, trees: seq<Tree>, n: nat, paths: set<Path>, p: Path)
    requires TruthfulChain(hash, commits, trees) && n < |commits| && forall c | c in commits :: Classify(c).Some?
    requires HonestCompare(paths, trees[0], trees[n + 1])
    ensures var base, final := trees[0], trees[n + 1];
            p in Introduced(commits[..n + 1]) - paths
            <==> && BroughtInAndKept(Entries(commits[..n + 1]), p)
                 && ((p in base && p in final && base[p] == final[p])
                     || (p !in base && p !in final && (IsEvidence(p) || TreesCollide(hash, trees, 0, n + 1))))
  {
    hide BroughtInAndKept, ApplyFiles;
    var chain := commits[..n + 1];
    IntroducedByEntries(chain);
    TrackedIff(Entries(chain), p);
    if p in Introduced(chain) && !IsEvidence(p) {
      assert forall c | c in chain :: c in commits;
      assert TruthfulChain(hash, chain, trees[..n + 2]);
      IntroducedPathsExist(hash, chain, trees[..n + 2], p);
      EarlierTreesCollide(hash, trees, n + 1);
    }
  }

  /** A valid and truthful chain for which an honest comparison leaves out a tracked path. */
  ghost predicate WronglyBlamed(
    hash: Tree -> Sha, commits: seq<Commit>, trees: seq<Tree>, paths: set<Path>, p: Path)
  {
    && commits != [] && TruthfulChain(hash, commits, trees) && ValidChain(commits, commits[|commits| - 1].sha)
    && IsFinal(commits, |commits| - 1) && HonestCompare(paths, trees[0], trees[|commits|])
    && p in Introduced(commits) - paths
  }

  /** Such a chain: one commit removes a file of the base, and the next adds it again unchanged. */
  lemma RestoredPathIsBlamed(hash: Tree -> Sha, full: Tree, p: Path)
    requires p in full && !IsEvidence(p) && hash(full) != hash(full - {p})
    ensures var none := full - {p};
            var removal := Commit(1, 0, hash(none), hash(full), [File(p, Removed)]);
            var addition := Commit(2, 1, hash(full), hash(none), [File(p, Added)]);
            WronglyBlamed(hash, [removal, addition], [full, none, full], {}, p)
  {
    var none := full - {p};
    var removal := Commit(1, 0, hash(none), hash(full), [File(p, Removed)]);
    var addition := Commit(2, 1, hash(full), hash(none), [File(p, Added)]);
    var commits, trees := [removal, addition], [full, none, full];
    OneFileCommit(hash, removal, full, none, p);
    OneFileCommit(hash, addition, none, full, p);
    LastAdditionIsTracked(commits, p);
    hide Truthful, Classify, Introduced, IsEvidence;
    assert IsCode(commits, 1) && TruthfulChain(hash, commits, trees);
  }

  lemma {:induction false} LastAdditionIsTracked(commits: seq<Commit>, p: Path)
    requires commits != [] && Classify(commits[|commits| - 1]) == Some(Code)
    requires commits[|commits| - 1].files == [File(p, Added)]
    ensures p in Introduced(commits)
  {
    var files := commits[|commits| - 1].files;
    assert files[..0] == [];
  }

  /** A commit that lists the only path at which its two trees differ tells the truth, and is code outside the evidence. */
  lemma OneFileCommit(hash: Tree -> Sha, c: Commit, before: Tree, after: Tree, p: Path)
    requires |c.files| == 1 && c.files[0].filename == p && !IsEvidence(p) && c.tree != c.parentTree
    requires c.parentTree == hash(before) && c.tree == hash(after) && forall q | q != p :: SameAt(before, after, q)
    requires if p in after then c.files[0].status.Added? else c.files[0].status.Removed?
    ensures Truthful(hash, c, before, after) && Classify(c) == Some(Code)
  {
    var f := c.files[0];
    assert f in c.files && PathsOf(f) == [p] && p in PathsOf(f);
    forall q | q in before && q !in after
      ensures q == p
    {
      assert q != p ==> SameAt(before, after, q);
    }
  }

  /** The other such chain: a code commit adds an evidence file with its code, and an evidence-only commit removes it. */
  lemma RemovedEvidenceIsBlamed(hash: Tree -> Sha, base: Tree, code: Path, p: Path)
    requires IsEvidence(p) && !IsEvidence(code) && p !in base && code !in base
    requires var added := base[p := 1][code := 1];
             && hash(base) != hash(added) && hash(added) != hash(added - {p})
             && hash(added - {p}) != hash((added - {p})[code := 2])
    ensures var added := base[p := 1][code := 1];
            var cleared := added - {p};
            var final := cleared[code := 2];
            var commits := [Commit(1, 0, hash(added), hash(base), [File(p, Added), File(code, Added)]),
                            Commit(2, 1, hash(cleared), hash(added), [File(p, Removed)]),
                            Commit(3, 2, hash(final), hash(cleared), [File(code, Modified)])];
            WronglyBlamed(hash, commits, [base, added, cleared, final], {code}, p)
  {
    var added := base[p := 1][code := 1];
    var cleared := added - {p};
    var final := cleared[code := 2];
    var first := Commit(1, 0, hash(added), hash(base), [File(p, Added), File(code, Added)]);
    var second := Commit(2, 1, hash(cleared), hash(added), [File(p, Removed)]);
    var third := Commit(3, 2, hash(final), hash(cleared), [File(code, Modified)]);
    var commits, trees := [first, second, third], [base, added, cleared, final];
    AddingBoth(hash, first, base, added, p, code);
    RemovingEvidence(hash, second, added, cleared, p);
    ChangingCode(hash, third, cleared, final, code);
    EvidenceStaysTracked(commits, p);
    hide Truthful, Classify, Introduced, IsEvidence;
    assert IsCode(commits, 2) && TruthfulChain(hash, commits, trees);
    assert SameAt(base, final, p) && !SameAt(base, final, code);
    assert forall q | q != code :: SameAt(base, final, q);
  }

  lemma AddingBoth(hash: Tree -> Sha, c: Commit, before: Tree, after: Tree, p: Path, code: Path)
    requires c.files == [File(p, Added), File(code, Added)] && c.tree != c.parentTree && !IsEvidence(code)
    requires c.parentTree == hash(before) && c.tree == hash(after) && p !in before && code !in before
    requires after == before[p := 1][code := 1]
    ensures Truthful(hash, c, before, after) && Classify(c) == Some(Code)
  {
    var f, g := c.files[0], c.files[1];
    assert f in c.files && g in c.files && p in PathsOf(f) && code in PathsOf(g);
    assert forall x | x in c.files :: x == f || x == g;
  }

  lemma RemovingEvidence(hash: Tree -> Sha, c: Commit, before: Tree, after: Tree, p: Path)
    requires c.files == [File(p, Removed)] && c.tree != c.parentTree && IsEvidence(p)
    requires c.parentTree == hash(before) && c.tree == hash(after) && after == before - {p}
    ensures Truthful(hash, c, before, after) && Classify(c) == Some(Metadata)
  {
    var f := c.files[0];
    assert f in c.files && p in PathsOf(f);
    assert forall x | x in c.files :: x == f;
  }

  lemma ChangingCode(hash: Tree -> Sha, c: Commit, before: Tree, after: Tree, code: Path)
    requires c.files == [File(code, Modified)] && c.tree != c.parentTree && !IsEvidence(code)
    requires c.parentTree == hash(before) && c.tree == hash(after) && code in before && after == before[code := 2]
    ensures Truthful(hash, c, before, after) && Classify(c) == Some(Code)
  {
    var f := c.files[0];
    assert f in c.files && code in PathsOf(f);
    assert forall x | x in c.files :: x == f;
  }

  lemma EvidenceStaysTracked(commits: seq<Commit>, p: Path)
    requires |commits| == 3 && Classify(commits[0]) == Some(Code) && Classify(commits[1]) == Some(Metadata)
    requires Classify(commits[2]) == Some(Code) && |commits[0].files| == 2 && |commits[2].files| == 1
    requires commits[0].files[0] == File(p, Added) && commits[0].files[1].status.Added? && commits[2].files[0].status.Modified?
    ensures p in Introduced(commits)
  {
    hide Classify;
    var entries := Entries(commits);
    assert commits[..2][..1] == commits[..1] && commits[..1][..0] == [];
    assert Entries(commits[..1]) == [] + commits[0].files == commits[0].files;
    assert Entries(commits[..2]) == commits[0].files + [] == commits[0].files;
    assert entries == commits[0].files + commits[2].files;
    IntroducedByEntries(commits);
    TrackedIff(entries, p);
    assert BringsIn(entries, 0, p) && NotDroppedSince(entries, 0, p);
  }
}
