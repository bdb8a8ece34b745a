/**
 The upload coroutine. Between its statements the event loop may run any steps of any other
 transactions; the coroutine itself may be cancelled at any of those points.
 */
module UploadServer {
  import opened Basics
  import opened Uploads

  datatype UploadError = ProductNotFound | ActorNotFound | DuplicateCurrentPdf | UploadFailed | UploadCancelled

  predicate IsStepOf(e: Event, t: TxId) {
    match e
    case CreateProduct(_) => false
    case Open(u, _, _) => u == t
    case Lock(u) => u == t
    case Number(u, _) => u == t
    case Publish(u) => u == t
    case InsertFile(u) => u == t
    case ReuseFile(u, _) => u == t
    case InsertVersion(u) => u == t
    case Repoint(u) => u == t
    case Commit(u) => u == t
    case Abort(u) => u == t
  }

  /** No step of one transaction moves another. */
  lemma OthersDoNotMove(s: System, e: Event, t: TxId)
    requires Enabled(s, e) && !IsStepOf(e, t) && t in s.txs
    ensures t in After(s, e).txs && After(s, e).txs[t] == s.txs[t]
  {
    hide PathOf, IsDigest, Committed;
  }

  /** What the outside decides: whether the administrator exists, and at which of the awaits the upload is cancelled. */
  datatype Outside = Outside(actorExists: bool, cancelAt: Option<nat>)

  /** The awaits at which a cancellation can strike before the commit. */
  const AWAITS := 8

  /** The state bears out the answer; a cancellation is asked for, or ends a wait for another transaction. */
  predicate Explains(s: System, t: TxId, product: ProductId, sha: Sha, size: nat, why: UploadError, outside: Outside) {
    match why
    case ProductNotFound => product !in s.tables.products
    case ActorNotFound => !outside.actorExists
    case DuplicateCurrentPdf => IsCurrentContent(s.tables, product, sha, size)
    case UploadFailed => exists f | f in s.tables.files :: IsFileOf(s.tables, f, sha) && s.tables.files[f].size != size
    case UploadCancelled =>
      (outside.cancelAt.Some? && outside.cancelAt.value < AWAITS) || !RowFree(s, t, product) || !DigestFree(s, t, sha)
  }

  /** Every committed file row has the path of its digest, so only its size can disagree with an upload. */
  lemma FileRowHasPath(s: System, f: FileId)
    requires Inv(s) && f in s.tables.files
    ensures IsDigest(s.tables.files[f].sha) && s.tables.files[f].path == PathOf(s.tables.files[f].sha)
  {}

  datatype RestoreError = RestoreProductNotFound | VersionNotFoundForProduct | RestoreCancelled

  /** The awaits at which a cancellation can strike a restore before its commit. */
  const RESTORE_AWAITS := 4

  predicate Strikes(cancelAt: Option<nat>) {
    cancelAt.Some? && cancelAt.value < RESTORE_AWAITS
  }

  predicate Refuses(s: System, t: TxId, product: ProductId, v: VersionId, why: RestoreError, cancelAt: Option<nat>) {
    match why
    case RestoreProductNotFound => product !in s.tables.products
    case VersionNotFoundForProduct => !OwnVersion(s.tables, product, v)
    case RestoreCancelled => Strikes(cancelAt) || !RowFree(s, t, product)
  }

  /** Whoever is past the lock holds the product's row alone. */
  lemma HolderIsAlone(s: System, t: TxId)
    requires Inv(s) && t in s.txs && !s.txs[t].phase.Waiting?
    ensures RowFree(s, t, s.txs[t].product)
  {
    hide TxSound, TablesSound, FilesSound, FormalSound;
    forall u | u in s.txs && u != t ensures !HoldsRow(s.txs[u], s.txs[t].product) {
      assert Disjoint(s.txs[t], s.txs[u]);
    }
  }

  /** The pointer alone has moved, and the public read serves the restored version's own file. */
  ghost predicate Restored(s: System, s': System, t: TxId, product: ProductId, v: VersionId, no: nat) {
    && product in s.tables.products && OwnVersion(s.tables, product, v) && s.tables.versions[v].no == no
    && s' == s.(tables := s.tables.(products := s.tables.products[product := Some(v)]), txs := s.txs - {t})
    && s.tables.versions[v].file in s.tables.files
    && var row := s.tables.files[s.tables.versions[v].file];
       && ResolvePublic(s'.tables, s'.formal, Some(product), false) == Available(row.path, row.size)
       && row.path in s'.formal && s'.formal[row.path] == row.sha
  }

  lemma CommitRestores(s: System, t: TxId, no: nat)
    requires Enabled(s, Commit(t)) && s.txs[t].job.Restore? && Inv(s)
    requires s.txs[t].job.version in s.tables.versions && s.tables.versions[s.txs[t].job.version].no == no
    ensures RowFree(s, t, s.txs[t].product) && OwnVersion(s.tables, s.txs[t].product, s.txs[t].job.version)
    ensures Restored(s, After(s, Commit(t)), t, s.txs[t].product, s.txs[t].job.version, no)
  {
    hide Inv, ResolvePublic, RowFree, Committed;
    HolderIsAlone(s, t);
    RestoreIsAtomic(s, t);
    RestoredVersionIsServed(s, t);
  }

  class Server {
    var sys: System

    constructor ()
      ensures sys == INITIAL
    {
      sys := INITIAL;
    }

    method Take(e: Event)
      requires Inv(sys) && Enabled(sys, e)
      modifies this
      ensures Inv(sys) && sys == After(old(sys), e)
    {
      EventKeepsInv(sys, e);
      sys := After(sys, e);
    }

    /** Let other transactions run. */
    method Yield(t: TxId, others: seq<Event>)
      requires Inv(sys) && t in sys.txs
      modifies this
      ensures Inv(sys) && t in sys.txs && sys.txs[t] == old(sys).txs[t]
      ensures forall v | v in old(sys).tables.versions ::
                v in sys.tables.versions && sys.tables.versions[v] == old(sys).tables.versions[v]
    {
      hide Inv, Enabled, After, IsStepOf;
      for i := 0 to |others|
        invariant Inv(sys) && t in sys.txs && sys.txs[t] == old(sys).txs[t]
        invariant forall v | v in old(sys).tables.versions ::
                    v in sys.tables.versions && sys.tables.versions[v] == old(sys).tables.versions[v]
      {
        if !IsStepOf(others[i], t) && Enabled(sys, others[i]) {
          OthersDoNotMove(sys, others[i], t);
          HistoryIsAppendOnly(sys, others[i]);
          Take(others[i]);
        }
      }
    }

    /** SELECT COALESCE(MAX(version_no), 0) + 1. */
    method NextVersionNo(product: ProductId) returns (no: nat)
      ensures no > 0 && IsMaxNo(sys.tables, product, no - 1)
    {
      var m, rest := 0, sys.tables.versions.Keys;
      while rest != {}
        invariant rest <= sys.tables.versions.Keys
        invariant forall v | v in sys.tables.versions && v !in rest && sys.tables.versions[v].product == product ::
                    sys.tables.versions[v].no <= m
        invariant m == 0 || HasNumber(sys.tables, product, m)
        decreases rest
      {
        var v :| v in rest;
        var row := sys.tables.versions[v];
        if row.product == product && row.no > m {
          m := row.no;
        }
        rest := rest - {v};
      }
      no := m + 1;
    }

    /** The row that made the insert conflict, if there is one. */
    method FindFile(sha: Sha) returns (file: Option<FileId>)
      ensures file.Some? ==> IsFileOf(sys.tables, file.value, sha)
      ensures file.None? ==> !KnownDigest(sys.tables, sha)
    {
      var rest := sys.tables.files.Keys;
      while rest != {}
        invariant rest <= sys.tables.files.Keys
        invariant forall f | f in sys.tables.files && f !in rest :: sys.tables.files[f].sha != sha
        decreases rest
      {
        var f :| f in rest;
        if sys.tables.files[f].sha == sha {
          return Some(f);
        }
        rest := rest - {f};
      }
      return None;
    }

    method Rollback(t: TxId, why: UploadError) returns (result: Result<VersionId, UploadError>)
      requires Inv(sys) && t in sys.txs
      modifies this
      ensures Inv(sys) && sys == After(old(sys), Abort(t)) && result == Err(why)
    {
      Take(Abort(t));
      result := Err(why);
    }

    /** Lock the product, look up the administrator, check for a duplicate, and choose the next version number. */
    method LockAndNumber(t: TxId, others: seq<seq<Event>>, outside: Outside)
      returns (error: Option<UploadError>)
      requires Inv(sys) && t in sys.txs && sys.txs[t].phase.Waiting? && sys.txs[t].job.Upload? && |others| >= AWAITS
      modifies this
      ensures Inv(sys) && t in sys.txs
      ensures sys.txs[t].product == old(sys).txs[t].product && sys.txs[t].job == old(sys).txs[t].job
      ensures error.None? ==>
                && sys.txs[t].phase.Numbered? && outside.actorExists
                && (outside.cancelAt.Some? ==> outside.cancelAt.value >= 3)
      ensures error.Some? ==>
                Explains(sys, t, sys.txs[t].product, sys.txs[t].job.sha, sys.txs[t].job.size, error.value, outside)
    {
      hide Inv, IsMaxNo, IsCurrentContent, Committed, PathOf, IsDigest, KnownDigest, RowFree, DigestFree;
      Yield(t, others[0]);
      if outside.cancelAt == Some(0) {
        return Some(UploadCancelled);
      }
      if sys.txs[t].product !in sys.tables.products {
        return Some(ProductNotFound);
      }
      if !RowFree(sys, t, sys.txs[t].product) {
        return Some(UploadCancelled);
      }
      Take(Lock(t));
      Yield(t, others[1]);
      if outside.cancelAt == Some(1) {
        return Some(UploadCancelled);
      }
      if !outside.actorExists {
        return Some(ActorNotFound);
      }
      Yield(t, others[2]);
      if outside.cancelAt == Some(2) {
        return Some(UploadCancelled);
      }
      CurrentPointerResolves(sys, t);
      if IsCurrentContent(sys.tables, sys.txs[t].product, sys.txs[t].job.sha, sys.txs[t].job.size) {
        return Some(DuplicateCurrentPdf);
      }
      var no := NextVersionNo(sys.txs[t].product);
      Take(Number(t, no));
      error := None;
    }

    /** Publish the content and find or insert its file row; a cancellation while publishing strikes once it is done. */
    method PublishAndFile(t: TxId, others: seq<seq<Event>>, outside: Outside) returns (error: Option<UploadError>)
      requires Inv(sys) && t in sys.txs && sys.txs[t].phase.Numbered? && |others| >= AWAITS
      modifies this
      ensures Inv(sys) && t in sys.txs
      ensures sys.txs[t].product == old(sys).txs[t].product && sys.txs[t].job == old(sys).txs[t].job
      ensures error.None? ==>
                sys.txs[t].phase.Filed? && outside.cancelAt != Some(3) && outside.cancelAt != Some(4)
      ensures error.Some? ==> error.value == UploadFailed || error.value == UploadCancelled
      ensures error.Some? ==>
                Explains(sys, t, sys.txs[t].product, sys.txs[t].job.sha, sys.txs[t].job.size, error.value, outside)
    {
      hide IsMaxNo, IsCurrentContent, Committed, PathOf, Inv, RowFree, DigestFree, IsDigest;
      Yield(t, others[3]);
      if outside.cancelAt == Some(3) {
        return Some(UploadCancelled);
      }
      UploadHasDigest(sys, t);
      Take(Publish(t));
      Yield(t, others[4]);
      if outside.cancelAt == Some(4) {
        return Some(UploadCancelled);
      }
      UploadHasDigest(sys, t);
      error := FindOrInsert(t, outside);
    }

    /** Read back the row of the digest, or insert it. */
    method FindOrInsert(t: TxId, outside: Outside) returns (error: Option<UploadError>)
      requires Inv(sys) && t in sys.txs && sys.txs[t].phase.Published? && sys.txs[t].job.Upload?
      requires IsDigest(sys.txs[t].job.sha)
      modifies this
      ensures Inv(sys) && t in sys.txs
      ensures sys.txs[t].product == old(sys).txs[t].product && sys.txs[t].job == old(sys).txs[t].job
      ensures error.None? ==> sys.txs[t].phase.Filed?
      ensures error.Some? ==> error.value == UploadFailed || error.value == UploadCancelled
      ensures error.Some? ==>
                Explains(sys, t, sys.txs[t].product, sys.txs[t].job.sha, sys.txs[t].job.size, error.value, outside)
    {
      hide IsMaxNo, IsCurrentContent, Committed, PathOf, Inv, RowFree, DigestFree, IsDigest;
      var file := FindFile(sys.txs[t].job.sha);
      if file.Some? {
        FileRowHasPath(sys, file.value);
        var row := sys.tables.files[file.value];
        if row.size != sys.txs[t].job.size || row.path != PathOf(sys.txs[t].job.sha) {
          return Some(UploadFailed);
        }
        Take(ReuseFile(t, file.value));
      } else {
        if !DigestFree(sys, t, sys.txs[t].job.sha) {
          return Some(UploadCancelled);
        }
        Take(InsertFile(t));
      }
      error := None;
    }

    /**
     The whole upload. It commits in one piece, or it rolls back without a trace in the tables and says why; `seen` is
     the state in which that was decided, and nothing else happens after it. A cancellation that strikes at any await
     before the commit never ends in a commit.
     */
    method UploadPdf(
      t: TxId, product: ProductId, sha: Sha, size: nat, others: seq<seq<Event>>, outside: Outside)
      returns (result: Result<VersionId, UploadError>, ghost seen: System, ghost file: FileId)
      requires Inv(sys) && t !in sys.txs && IsDigest(sha) && |others| >= AWAITS
      modifies this
      ensures Inv(sys) && t !in sys.txs
      ensures t in seen.txs && Enabled(seen, if result.Ok? then Commit(t) else Abort(t))
      ensures sys == After(seen, if result.Ok? then Commit(t) else Abort(t))
      ensures result.Ok? ==> AtomicUpload(seen.tables, sys.tables, product, sha, size, file, result.value)
      ensures result.Ok? ==> outside.actorExists && (outside.cancelAt.None? || outside.cancelAt.value >= AWAITS)
      ensures result.Err? ==> sys.tables == seen.tables && Explains(seen, t, product, sha, size, result.error, outside)
    {
      hide AtomicUpload, IsMaxNo, IsCurrentContent, PathOf, KnownDigest, Explains, Inv, Committed;
      file := 0;
      Take(Open(t, product, Upload(sha, size)));
      var error;
      error := LockAndNumber(t, others, outside);
      seen := sys;
      if error.Some? {
        result := Rollback(t, error.value);
        return;
      }
      error := PublishAndFile(t, others, outside);
      seen := sys;
      if error.Some? {
        result := Rollback(t, error.value);
        return;
      }
      result, seen, file := AppendAndRepoint(t, others, outside);
      if result.Err? {
        CancelledOnRequest(seen, t, product, sha, size, outside);
      }
    }

    /** Append the version row, move the pointer, and commit, or be cancelled at one of the awaits. */
    method AppendAndRepoint(t: TxId, others: seq<seq<Event>>, outside: Outside)
      returns (result: Result<VersionId, UploadError>, ghost seen: System, ghost file: FileId)
      requires Inv(sys) && t in sys.txs && sys.txs[t].phase.Filed? && sys.txs[t].job.Upload? && |others| >= AWAITS
      modifies this
      ensures Inv(sys) && t !in sys.txs
      ensures t in seen.txs && Enabled(seen, if result.Ok? then Commit(t) else Abort(t))
      ensures sys == After(seen, if result.Ok? then Commit(t) else Abort(t))
      ensures result.Ok? ==>
                AtomicUpload(seen.tables, sys.tables, old(sys).txs[t].product, old(sys).txs[t].job.sha,
                             old(sys).txs[t].job.size, file, result.value)
      ensures result.Err? <==> outside.cancelAt.Some? && 5 <= outside.cancelAt.value < AWAITS
      ensures result.Err? ==> result.error == UploadCancelled && sys.tables == seen.tables
    {
      hide AtomicUpload, Inv, Committed, PathOf;
      file := 0;
      Yield(t, others[5]);
      seen := sys;
      if outside.cancelAt == Some(5) {
        result := Rollback(t, UploadCancelled);
        return;
      }
      Take(InsertVersion(t));
      Yield(t, others[6]);
      seen := sys;
      if outside.cancelAt == Some(6) {
        result := Rollback(t, UploadCancelled);
        return;
      }
      Take(Repoint(t));
      Yield(t, others[7]);
      seen := sys;
      if outside.cancelAt == Some(7) {
        result := Rollback(t, UploadCancelled);
        return;
      }
      file := sys.txs[t].phase.file;
      CommitIsAtomic(sys, t);
      result := Ok(sys.txs[t].phase.version);
      Take(Commit(t));
    }

    method RollbackRestore(t: TxId, why: RestoreError) returns (result: Result<nat, RestoreError>)
      requires Inv(sys) && t in sys.txs
      modifies this
      ensures Inv(sys) && sys == After(old(sys), Abort(t)) && result == Err(why)
    {
      Take(Abort(t));
      result := Err(why);
    }

    /** Lock the product, look for the version among its own, and move the pointer; nothing is committed yet. */
    method LockAndRepoint(t: TxId, others: seq<seq<Event>>, cancelAt: Option<nat>) returns (error: Option<RestoreError>)
      requires Inv(sys) && t in sys.txs && sys.txs[t].phase.Waiting? && sys.txs[t].job.Restore?
      requires |others| >= RESTORE_AWAITS
      modifies this
      ensures Inv(sys) && t in sys.txs
      ensures sys.txs[t].product == old(sys).txs[t].product && sys.txs[t].job == old(sys).txs[t].job
      ensures error.None? ==> sys.txs[t].phase.RestorePointed? && !Strikes(cancelAt)
      ensures error.Some? ==>
                Refuses(sys, t, sys.txs[t].product, sys.txs[t].job.version, error.value, cancelAt)
    {
      hide Inv, Committed, PathOf, IsDigest, RowFree, Resolves;
      Yield(t, others[0]);
      if cancelAt == Some(0) {
        return Some(RestoreCancelled);
      }
      if sys.txs[t].product !in sys.tables.products {
        return Some(RestoreProductNotFound);
      }
      if !RowFree(sys, t, sys.txs[t].product) {
        return Some(RestoreCancelled);
      }
      Take(Lock(t));
      Yield(t, others[1]);
      if cancelAt == Some(1) {
        return Some(RestoreCancelled);
      }
      if !OwnVersion(sys.tables, sys.txs[t].product, sys.txs[t].job.version) {
        return Some(VersionNotFoundForProduct);
      }
      Yield(t, others[2]);
      if cancelAt == Some(2) {
        return Some(RestoreCancelled);
      }
      RestoreFindsItsOrigin(sys, t);
      Take(Repoint(t));
      Yield(t, others[3]);
      error := if cancelAt == Some(3) then Some(RestoreCancelled) else None;
    }

    /**
     The whole restore. It succeeds exactly when, in the state in which that was decided, the product exists, the
     version is its own, nobody else holds the row and no cancellation struck; then the pointer alone has moved, and the
     public read serves that version's file. Otherwise the tables are as they were and the state bears out the answer.
     */
    method RestorePdfVersion(
      t: TxId, product: ProductId, version: VersionId, others: seq<seq<Event>>, cancelAt: Option<nat>)
      returns (result: Result<nat, RestoreError>, ghost seen: System)
      requires Inv(sys) && t !in sys.txs && |others| >= RESTORE_AWAITS
      modifies this
      ensures Inv(sys) && t !in sys.txs && t in seen.txs
      ensures result.Ok? <==>
              && product in seen.tables.products && OwnVersion(seen.tables, product, version)
              && RowFree(seen, t, product) && !Strikes(cancelAt)
      ensures result.Ok? ==> Restored(seen, sys, t, product, version, result.value)
      ensures result.Err? ==>
                sys == seen.(txs := seen.txs - {t}) && Refuses(seen, t, product, version, result.error, cancelAt)
    {
      hide Inv, Committed, RowFree, Restored, PathOf, IsDigest;
      Take(Open(t, product, Restore(version)));
      var error := LockAndRepoint(t, others, cancelAt);
      seen := sys;
      if error.Some? {
        result := RollbackRestore(t, error.value);
        return;
      }
      OwnRowExists(sys, t);
      result := Ok(sys.tables.versions[version].no);
      CommitRestores(sys, t, result.value);
      Take(Commit(t));
    }
  }

  lemma OwnRowExists(s: System, t: TxId)
    requires Inv(s) && t in s.txs && !s.txs[t].phase.Waiting?
    ensures s.txs[t].product in s.tables.products
    ensures s.txs[t].phase.RestorePointed? ==> s.txs[t].job.Restore? && s.txs[t].job.version in s.tables.versions
  {
    assert TxSound(s, s.txs[t]);
  }

  lemma CancelledOnRequest(s: System, t: TxId, product: ProductId, sha: Sha, size: nat, outside: Outside)
    requires outside.cancelAt.Some? && outside.cancelAt.value < AWAITS
    ensures Explains(s, t, product, sha, size, UploadCancelled, outside)
  {}

  lemma CurrentPointerResolves(s: System, t: TxId)
    requires Inv(s) && t in s.txs && !s.txs[t].phase.Waiting?
    ensures Resolves(s.tables, s.txs[t].product)
  {
    PointersResolve(s, s.txs[t]);
  }

  lemma UploadHasDigest(s: System, t: TxId)
    requires Inv(s) && t in s.txs && HasNo(s.txs[t].phase)
    ensures s.txs[t].job.Upload? && IsDigest(s.txs[t].job.sha)
  {
    assert TxSound(s, s.txs[t]);
  }
}
