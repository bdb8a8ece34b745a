/**
 PDF uploads and version restores as interleaved transactions.

 Every statement of a transaction is one step over the committed tables, the formal files
 and the transaction's own pending rows. Row locks and unique keys are the only things that
 make a transaction wait; it may roll back or be cancelled before any step.
 */
module Uploads {
  import opened Basics

  type ProductId = nat
  type VersionId = nat
  type FileId = nat
  type TxId = nat
  type Sha = string

  datatype FileRow = FileRow(sha: Sha, size: nat, path: string)

  datatype VersionRow = VersionRow(product: ProductId, file: FileId, no: nat)

  /** The committed tables, and the id sequences, which never go back. */
  datatype Tables = Tables(
    products: map<ProductId, Option<VersionId>>,
    versions: map<VersionId, VersionRow>,
    files: map<FileId, FileRow>)

  datatype Job = Upload(sha: Sha, size: nat) | Restore(version: VersionId)

  /** How far a transaction has come; later phases carry what earlier statements returned. */
  datatype Phase =
    | Waiting
    | Locked
    | Numbered(no: nat)
    | Published(no: nat)
    | Filed(no: nat, file: FileId, isNew: bool)
    | Versioned(no: nat, file: FileId, isNew: bool, version: VersionId)
    | Repointed(no: nat, file: FileId, isNew: bool, version: VersionId)
    | RestorePointed

  datatype Tx = Tx(product: ProductId, job: Job, phase: Phase)

  datatype System = System(
    tables: Tables,
    formal: map<string, Sha>,      // formal path to the digest of the content there
    txs: map<TxId, Tx>,
    nextFile: FileId,
    nextVersion: VersionId)

  const INITIAL := System(Tables(map[], map[], map[]), map[], map[], 0, 0)

  // ---------------------------------------------------------------------------
  // Storage paths
  // ---------------------------------------------------------------------------

  predicate IsDigest(sha: Sha) {
    |sha| == 64 && forall ch | ch in sha :: '0' <= ch <= '9' || 'a' <= ch <= 'f'
  }

  /** Two directory levels and the digest itself, below the file root. */
  function PathOf(sha: Sha): string
    requires IsDigest(sha)
  {
    sha[..2] + "/" + sha[2..4] + "/" + sha + ".pdf"
  }

  /** Distinct contents never share a formal path. */
  lemma PathsAreDistinct(a: Sha, b: Sha)
    requires IsDigest(a) && IsDigest(b) && PathOf(a) == PathOf(b)
    ensures a == b
  {
    assert PathOf(a)[6..70] == a;
    assert PathOf(b)[6..70] == b;
  }

  // ---------------------------------------------------------------------------
  // Statements
  // ---------------------------------------------------------------------------

  predicate HasNumber(t: Tables, product: ProductId, k: nat) {
    exists v | v in t.versions :: t.versions[v].product == product && t.versions[v].no == k
  }

  /** The greatest committed version number of a product, or 0. */
  predicate IsMaxNo(t: Tables, product: ProductId, m: nat) {
    && (forall v | v in t.versions && t.versions[v].product == product :: t.versions[v].no <= m)
    && (m == 0 || HasNumber(t, product, m))
  }

  /** The current version of a product has exactly this content. */
  predicate IsCurrentContent(t: Tables, product: ProductId, sha: Sha, size: nat) {
    && product in t.products && t.products[product].Some?
    && var v := t.products[product].value;
       && v in t.versions && t.versions[v].product == product && t.versions[v].file in t.files
       && t.files[t.versions[v].file].sha == sha && t.files[t.versions[v].file].size == size
  }

  /** The current pointer can be resolved to a version and a file of this product. */
  predicate Resolves(t: Tables, product: ProductId) {
    && product in t.products
    && (t.products[product].Some? ==>
          var v := t.products[product].value;
          v in t.versions && t.versions[v].product == product && t.versions[v].file in t.files)
  }

  predicate HoldsRow(tx: Tx, product: ProductId) {
    tx.product == product && !tx.phase.Waiting?
  }

  predicate RowFree(s: System, t: TxId, product: ProductId) {
    forall u | u in s.txs && u != t :: !HoldsRow(s.txs[u], product)
  }

  predicate HasFile(p: Phase) {
    p.Filed? || p.Versioned? || p.Repointed?
  }

  /** An uncommitted file row with this digest, inserted by this transaction. */
  predicate HoldsDigest(tx: Tx, sha: Sha) {
    tx.job.Upload? && tx.job.sha == sha && HasFile(tx.phase) && tx.phase.isNew
  }

  predicate DigestFree(s: System, t: TxId, sha: Sha) {
    forall u | u in s.txs && u != t :: !HoldsDigest(s.txs[u], sha)
  }

  predicate IsFileOf(t: Tables, file: FileId, sha: Sha) {
    file in t.files && t.files[file].sha == sha
  }

  predicate KnownDigest(t: Tables, sha: Sha) {
    exists f | f in t.files :: t.files[f].sha == sha
  }

  datatype Event =
    | CreateProduct(product: ProductId)
    | Open(t: TxId, product: ProductId, job: Job)
    | Lock(t: TxId)                       // SELECT ... FOR UPDATE
    | Number(t: TxId, no: nat)            // duplicate check, then MAX(version_no) + 1
    | Publish(t: TxId)                    // rename into formal storage
    | InsertFile(t: TxId)                 // INSERT ... ON CONFLICT DO NOTHING inserted a row
    | ReuseFile(t: TxId, file: FileId)    // the conflicting committed row is read back
    | InsertVersion(t: TxId)
    | Repoint(t: TxId)
    | Commit(t: TxId)
    | Abort(t: TxId)                      // error, rollback or cancellation

  predicate Enabled(s: System, e: Event) {
    match e
    case CreateProduct(product) => product !in s.tables.products
    case Open(t, product, job) => t !in s.txs && (job.Upload? ==> IsDigest(job.sha))
    case Lock(t) =>
      t in s.txs && s.txs[t].phase.Waiting? && s.txs[t].product in s.tables.products && RowFree(s, t, s.txs[t].product)
    case Number(t, no) =>
      && t in s.txs && s.txs[t].phase.Locked? && s.txs[t].job.Upload?
      && Resolves(s.tables, s.txs[t].product)
      && !IsCurrentContent(s.tables, s.txs[t].product, s.txs[t].job.sha, s.txs[t].job.size)
      && no > 0 && IsMaxNo(s.tables, s.txs[t].product, no - 1)
    case Publish(t) => t in s.txs && s.txs[t].phase.Numbered? && s.txs[t].job.Upload? && IsDigest(s.txs[t].job.sha)
    case InsertFile(t) =>
      && t in s.txs && s.txs[t].phase.Published? && s.txs[t].job.Upload? && IsDigest(s.txs[t].job.sha)
      && !KnownDigest(s.tables, s.txs[t].job.sha) && DigestFree(s, t, s.txs[t].job.sha)
    case ReuseFile(t, file) =>
      && t in s.txs && s.txs[t].phase.Published? && s.txs[t].job.Upload? && IsDigest(s.txs[t].job.sha)
      && IsFileOf(s.tables, file, s.txs[t].job.sha)
      && s.tables.files[file].size == s.txs[t].job.size && s.tables.files[file].path == PathOf(s.txs[t].job.sha)
    case InsertVersion(t) => t in s.txs && s.txs[t].phase.Filed?
    case Repoint(t) =>
      && t in s.txs
      && (match s.txs[t].job
          case Upload(_, _) => s.txs[t].phase.Versioned?
          case Restore(v) =>
            && s.txs[t].phase.Locked?
            && v in s.tables.versions && s.tables.versions[v].product == s.txs[t].product
            && Resolves(s.tables, s.txs[t].product) && s.tables.products[s.txs[t].product].Some?)
    case Commit(t) => t in s.txs && (s.txs[t].phase.Repointed? || s.txs[t].phase.RestorePointed?)
    case Abort(t) => t in s.txs
  }

  function SetPhase(s: System, t: TxId, p: Phase): System
    requires t in s.txs
  {
    s.(txs := s.txs[t := s.txs[t].(phase := p)])
  }

  /** The rows a finished transaction makes visible. */
  function Committed(tables: Tables, tx: Tx): Tables {
    match (tx.job, tx.phase)
    case (Restore(v), RestorePointed) => tables.(products := tables.products[tx.product := Some(v)])
    case (Upload(sha, size), Repointed(no, file, isNew, version)) =>
      Tables(
        tables.products[tx.product := Some(version)],
        tables.versions[version := VersionRow(tx.product, file, no)],
        if isNew && IsDigest(sha) then tables.files[file := FileRow(sha, size, PathOf(sha))] else tables.files)
    case _ => tables
  }

  function After(s: System, e: Event): System
    requires Enabled(s, e)
  {
    match e
    case CreateProduct(product) => s.(tables := s.tables.(products := s.tables.products[product := None]))
    case Open(t, product, job) => s.(txs := s.txs[t := Tx(product, job, Waiting)])
    case Lock(t) => SetPhase(s, t, Locked)
    case Number(t, no) => SetPhase(s, t, Numbered(no))
    case Publish(t) =>
      var path := PathOf(s.txs[t].job.sha);
      var s' := SetPhase(s, t, Published(s.txs[t].phase.no));
      if path in s.formal then s' else s'.(formal := s.formal[path := s.txs[t].job.sha])
    case InsertFile(t) =>
      SetPhase(s, t, Filed(s.txs[t].phase.no, s.nextFile, true)).(nextFile := s.nextFile + 1)
    case ReuseFile(t, file) => SetPhase(s, t, Filed(s.txs[t].phase.no, file, false))
    case InsertVersion(t) =>
      var p := s.txs[t].phase;
      SetPhase(s, t, Versioned(p.no, p.file, p.isNew, s.nextVersion)).(nextVersion := s.nextVersion + 1)
    case Repoint(t) =>
      var p := s.txs[t].phase;
      SetPhase(s, t, if p.Versioned? then Repointed(p.no, p.file, p.isNew, p.version) else RestorePointed)
    case Commit(t) => s.(tables := Committed(s.tables, s.txs[t]), txs := s.txs - {t})
    case Abort(t) => s.(txs := s.txs - {t})
  }

  // ---------------------------------------------------------------------------
  // The invariant
  // ---------------------------------------------------------------------------

  /** A product's committed versions are numbered 1 to n, each number once. */
  ghost predicate NumberedTo(t: Tables, product: ProductId, n: nat) {
    && (forall v | v in t.versions && t.versions[v].product == product :: 1 <= t.versions[v].no <= n)
    && (forall k | 1 <= k <= n :: HasNumber(t, product, k))
    && (forall v, w | v in t.versions && w in t.versions
                      && t.versions[v].product == product && t.versions[w].product == product
                      && t.versions[v].no == t.versions[w].no :: v == w)
  }

  ghost predicate ProductSound(t: Tables, product: ProductId)
    requires product in t.products
  {
    && (exists n :: NumberedTo(t, product, n))
    && (t.products[product].None? <==> forall v | v in t.versions :: t.versions[v].product != product)
    && (t.products[product].Some? ==>
          t.products[product].value in t.versions && t.versions[t.products[product].value].product == product)
  }

  ghost predicate FilesSound(t: Tables, formal: map<string, Sha>) {
    && (forall f | f in t.files ::
          && IsDigest(t.files[f].sha) && t.files[f].path == PathOf(t.files[f].sha)
          && t.files[f].path in formal && formal[t.files[f].path] == t.files[f].sha)
    && (forall f, g | f in t.files && g in t.files && t.files[f].sha == t.files[g].sha :: f == g)
  }

  ghost predicate TablesSound(t: Tables) {
    && (forall v | v in t.versions :: t.versions[v].product in t.products && t.versions[v].file in t.files)
    && (forall product | product in t.products :: ProductSound(t, product))
  }

  ghost predicate FormalSound(formal: map<string, Sha>) {
    forall path | path in formal :: IsDigest(formal[path]) && path == PathOf(formal[path])
  }

  predicate HasNo(p: Phase) {
    p.Numbered? || p.Published? || HasFile(p)
  }

  predicate HasVersion(p: Phase) {
    p.Versioned? || p.Repointed?
  }

  /** What a transaction's earlier statements still guarantee. */
  ghost predicate TxSound(s: System, tx: Tx) {
    && (!tx.phase.Waiting? ==> tx.product in s.tables.products)
    && (tx.job.Upload? ==> IsDigest(tx.job.sha))
    && (HasNo(tx.phase) ==>
          && tx.job.Upload? && tx.phase.no > 0 && IsMaxNo(s.tables, tx.product, tx.phase.no - 1)
          && !IsCurrentContent(s.tables, tx.product, tx.job.sha, tx.job.size))
    && (tx.phase.Published? || HasFile(tx.phase) ==>
          PathOf(tx.job.sha) in s.formal && s.formal[PathOf(tx.job.sha)] == tx.job.sha)
    && (HasFile(tx.phase) ==>
          if tx.phase.isNew
          then tx.phase.file !in s.tables.files && !KnownDigest(s.tables, tx.job.sha) && tx.phase.file < s.nextFile
          else tx.phase.file in s.tables.files
               && s.tables.files[tx.phase.file] == FileRow(tx.job.sha, tx.job.size, PathOf(tx.job.sha)))
    && (HasVersion(tx.phase) ==> tx.phase.version !in s.tables.versions && tx.phase.version < s.nextVersion)
    && (tx.phase.RestorePointed? ==>
          && tx.job.Restore? && tx.job.version in s.tables.versions
          && s.tables.versions[tx.job.version].product == tx.product)
  }

  /** Two transactions never hold the same row, the same pending digest, or the same new id. */
  ghost predicate Disjoint(a: Tx, b: Tx) {
    && !(a.product == b.product && !a.phase.Waiting? && !b.phase.Waiting?)
    && (HasFile(a.phase) && HasFile(b.phase) && a.phase.isNew && b.phase.isNew ==>
          a.phase.file != b.phase.file && (a.job.Upload? && b.job.Upload? ==> a.job.sha != b.job.sha))
    && (HasVersion(a.phase) && HasVersion(b.phase) ==> a.phase.version != b.phase.version)
  }

  ghost predicate Inv(s: System) {
    && TablesSound(s.tables)
    && FilesSound(s.tables, s.formal)
    && FormalSound(s.formal)
    && (forall f | f in s.tables.files :: f < s.nextFile)
    && (forall v | v in s.tables.versions :: v < s.nextVersion)
    && (forall t | t in s.txs :: TxSound(s, s.txs[t]))
    && (forall t, u | t in s.txs && u in s.txs && t != u :: Disjoint(s.txs[t], s.txs[u]))
  }

  // ---------------------------------------------------------------------------
  // Every step keeps the invariant
  // ---------------------------------------------------------------------------

  /** Uncommitted work of others cannot invalidate a transaction. */
  lemma TxSoundFrame(s: System, s': System, tx: Tx)
    requires TxSound(s, tx) && s'.tables == s.tables && s.nextFile <= s'.nextFile && s.nextVersion <= s'.nextVersion
    requires forall path | path in s.formal :: path in s'.formal && s'.formal[path] == s.formal[path]
    ensures TxSound(s', tx)
  {
  }

  /** A step that only changes one transaction. */
  lemma OwnStepKeepsInv(s: System, s': System, t: TxId)
    requires Inv(s) && t in s.txs && t in s'.txs
    requires s'.tables == s.tables && s.nextFile <= s'.nextFile && s.nextVersion <= s'.nextVersion
    requires s'.txs == s.txs[t := s'.txs[t]]
    requires forall path | path in s.formal :: path in s'.formal && s'.formal[path] == s.formal[path]
    requires FormalSound(s'.formal) && TxSound(s', s'.txs[t])
    requires forall u | u in s.txs && u != t :: Disjoint(s'.txs[t], s.txs[u])
    ensures Inv(s')
  {
    forall u | u in s'.txs ensures TxSound(s', s'.txs[u]) {
      if u != t {
        TxSoundFrame(s, s', s.txs[u]);
      }
    }
    forall u, w | u in s'.txs && w in s'.txs && u != w ensures Disjoint(s'.txs[u], s'.txs[w]) {
      assert Disjoint(s.txs[u], s.txs[w]);
    }
    hide TxSound, Disjoint, ProductSound, PathOf, IsDigest;
    assert FilesSound(s'.tables, s'.formal);
  }

  lemma LockKeepsInv(s: System, t: TxId)
    requires Inv(s) && Enabled(s, Lock(t))
    ensures Inv(After(s, Lock(t)))
  {
    OwnStepKeepsInv(s, After(s, Lock(t)), t);
  }

  lemma NumberKeepsInv(s: System, t: TxId, no: nat)
    requires Inv(s) && Enabled(s, Number(t, no))
    ensures Inv(After(s, Number(t, no)))
  {
    hide IsMaxNo, IsCurrentContent, KnownDigest, PathOf, IsDigest, TablesSound, FilesSound, Resolves;
    assert forall u | u in s.txs && u != t :: Disjoint(s.txs[t], s.txs[u]);
    OwnStepKeepsInv(s, After(s, Number(t, no)), t);
  }

  /** Publishing leaves the digest's own content at its path, whether or not the file was there. */
  lemma PublishedContent(s: System, t: TxId)
    requires FormalSound(s.formal) && Enabled(s, Publish(t))
    ensures var s' := After(s, Publish(t));
            && PathOf(s.txs[t].job.sha) in s'.formal && s'.formal[PathOf(s.txs[t].job.sha)] == s.txs[t].job.sha
            && FormalSound(s'.formal)
            && forall path | path in s.formal :: path in s'.formal && s'.formal[path] == s.formal[path]
  {
    var path := PathOf(s.txs[t].job.sha);
    if path in s.formal {
      PathsAreDistinct(s.txs[t].job.sha, s.formal[path]);
    }
    hide PathOf, IsDigest;
  }

  lemma PublishedTx(s: System, t: TxId)
    requires Enabled(s, Publish(t)) && FormalSound(s.formal) && TxSound(s, s.txs[t])
    requires forall u | u in s.txs && u != t :: Disjoint(s.txs[t], s.txs[u])
    ensures TxSound(After(s, Publish(t)), After(s, Publish(t)).txs[t])
    ensures forall u | u in s.txs && u != t :: Disjoint(After(s, Publish(t)).txs[t], s.txs[u])
  {
    PublishedContent(s, t);
    hide IsMaxNo, IsCurrentContent, KnownDigest, PathOf, IsDigest, FormalSound;
  }

  lemma PublishKeepsInv(s: System, t: TxId)
    requires Inv(s) && Enabled(s, Publish(t))
    ensures Inv(After(s, Publish(t)))
  {
    PublishedContent(s, t);
    PublishedTx(s, t);
    hide TxSound, Disjoint, PathOf, IsDigest, TablesSound, FilesSound, FormalSound, Inv;
    OwnStepKeepsInv(s, After(s, Publish(t)), t);
  }

  lemma InsertFileKeepsInv(s: System, t: TxId)
    requires Inv(s) && Enabled(s, InsertFile(t))
    ensures Inv(After(s, InsertFile(t)))
  {
    hide IsMaxNo, IsCurrentContent, KnownDigest, PathOf, IsDigest, TablesSound, FilesSound, Resolves;
    var s' := After(s, InsertFile(t));
    assert TxSound(s, s.txs[t]);
    forall u | u in s.txs && u != t ensures Disjoint(s'.txs[t], s.txs[u]) {
      assert Disjoint(s.txs[t], s.txs[u]) && TxSound(s, s.txs[u]) && !HoldsDigest(s.txs[u], s.txs[t].job.sha);
    }
    OwnStepKeepsInv(s, s', t);
  }

  lemma ReuseFileKeepsInv(s: System, t: TxId, file: FileId)
    requires Inv(s) && Enabled(s, ReuseFile(t, file))
    ensures Inv(After(s, ReuseFile(t, file)))
  {
    hide IsMaxNo, IsCurrentContent, KnownDigest, PathOf, IsDigest, TablesSound, FilesSound, Resolves;
    assert TxSound(s, s.txs[t]);
    assert forall u | u in s.txs && u != t :: Disjoint(s.txs[t], s.txs[u]);
    OwnStepKeepsInv(s, After(s, ReuseFile(t, file)), t);
  }

  lemma InsertVersionKeepsInv(s: System, t: TxId)
    requires Inv(s) && Enabled(s, InsertVersion(t))
    ensures Inv(After(s, InsertVersion(t)))
  {
    hide IsMaxNo, IsCurrentContent, KnownDigest, PathOf, IsDigest, TablesSound, FilesSound, Resolves;
    var s' := After(s, InsertVersion(t));
    assert TxSound(s, s.txs[t]);
    forall u | u in s.txs && u != t ensures Disjoint(s'.txs[t], s.txs[u]) {
      assert Disjoint(s.txs[t], s.txs[u]) && TxSound(s, s.txs[u]);
    }
    OwnStepKeepsInv(s, s', t);
  }

  lemma RepointKeepsInv(s: System, t: TxId)
    requires Inv(s) && Enabled(s, Repoint(t))
    ensures Inv(After(s, Repoint(t)))
  {
    hide IsMaxNo, IsCurrentContent, KnownDigest, PathOf, IsDigest, TablesSound, FilesSound, Resolves;
    assert TxSound(s, s.txs[t]);
    assert forall u | u in s.txs && u != t :: Disjoint(s.txs[t], s.txs[u]);
    OwnStepKeepsInv(s, After(s, Repoint(t)), t);
  }

  lemma OpenKeepsInv(s: System, t: TxId, product: ProductId, job: Job)
    requires Inv(s) && Enabled(s, Open(t, product, job))
    ensures Inv(After(s, Open(t, product, job)))
  {
    var s' := After(s, Open(t, product, job));
    forall u | u in s'.txs ensures TxSound(s', s'.txs[u]) {
      if u != t { TxSoundFrame(s, s', s.txs[u]); }
    }
  }

  lemma AbortKeepsInv(s: System, t: TxId)
    requires Inv(s) && Enabled(s, Abort(t))
    ensures Inv(After(s, Abort(t)))
  {
    var s' := After(s, Abort(t));
    forall u | u in s'.txs ensures TxSound(s', s'.txs[u]) {
      TxSoundFrame(s, s', s.txs[u]);
    }
  }

  // ---------------------------------------------------------------------------
  // Commit
  // ---------------------------------------------------------------------------

  /** What a committing upload adds, as seen from the tables. */
  ghost predicate CommitReady(s: System, tx: Tx) {
    && TxSound(s, tx)
    && (tx.phase.Repointed? || tx.phase.RestorePointed?)
  }

  lemma CommitFiles(s: System, tx: Tx)
    requires CommitReady(s, tx) && FilesSound(s.tables, s.formal)
    ensures FilesSound(Committed(s.tables, tx), s.formal)
    ensures tx.phase.Repointed? ==> tx.phase.file in Committed(s.tables, tx).files
  {
    hide IsMaxNo, IsCurrentContent, PathOf, IsDigest;
    var t' := Committed(s.tables, tx);
    forall f, g | f in t'.files && g in t'.files && t'.files[f].sha == t'.files[g].sha ensures f == g {
      assert f in s.tables.files ==> !(tx.phase.Repointed? && tx.phase.isNew) || s.tables.files[f].sha != tx.job.sha;
    }
  }

  lemma CommitNumbers(s: System, tx: Tx, product: ProductId, n: nat)
    requires CommitReady(s, tx) && NumberedTo(s.tables, product, n)
    ensures NumberedTo(Committed(s.tables, tx), product, if tx.phase.Repointed? && tx.product == product then n + 1 else n)
  {
    hide IsCurrentContent, PathOf, IsDigest, KnownDigest;
    var t' := Committed(s.tables, tx);
    var isNew := tx.phase.Repointed? && tx.product == product;
    if isNew {
      NextNumber(s.tables, product, n, tx.phase.no - 1);
      assert t'.versions[tx.phase.version] == VersionRow(product, tx.phase.file, n + 1);
    }
    forall k | 1 <= k <= (if isNew then n + 1 else n) ensures HasNumber(t', product, k) {
      if k <= n {
        assert HasNumber(s.tables, product, k);
        var v :| v in s.tables.versions && s.tables.versions[v].product == product && s.tables.versions[v].no == k;
        assert t'.versions[v] == s.tables.versions[v];
      } else {
        assert t'.versions[tx.phase.version].no == k;
      }
    }
  }

  lemma NextNumber(t: Tables, product: ProductId, n: nat, m: nat)
    requires NumberedTo(t, product, n) && IsMaxNo(t, product, m)
    ensures m == n
  {
    assert n > 0 ==> HasNumber(t, product, n);
  }

  lemma CommitTables(s: System, tx: Tx)
    requires CommitReady(s, tx) && TablesSound(s.tables) && FilesSound(s.tables, s.formal)
    ensures TablesSound(Committed(s.tables, tx))
  {
    var t' := Committed(s.tables, tx);
    assert tx.product in s.tables.products;
    hide ProductSound, Committed, CommitReady, FilesSound;
    forall product | product in t'.products ensures ProductSound(t', product) {
      CommitProduct(s, tx, product);
    }
    CommitFiles(s, tx);
    CommitReferences(s.tables, tx, t');
  }

  lemma CommitReferences(t: Tables, tx: Tx, t': Tables)
    requires forall v | v in t.versions :: t.versions[v].product in t.products && t.versions[v].file in t.files
    requires t' == Committed(t, tx) && tx.product in t.products
    requires tx.phase.Repointed? ==> tx.phase.file in t'.files
    ensures forall v | v in t'.versions :: t'.versions[v].product in t'.products && t'.versions[v].file in t'.files
  {
    hide PathOf, IsDigest;
    assert t.products.Keys <= t'.products.Keys && t.files.Keys <= t'.files.Keys;
    assert forall v | v in t'.versions ::
        (v in t.versions && t'.versions[v] == t.versions[v])
        || (tx.phase.Repointed? && t'.versions[v].product == tx.product && t'.versions[v].file == tx.phase.file);
  }

  lemma CommitProduct(s: System, tx: Tx, product: ProductId)
    requires CommitReady(s, tx) && TablesSound(s.tables) && product in Committed(s.tables, tx).products
    ensures ProductSound(Committed(s.tables, tx), product)
  {
    hide IsMaxNo, IsCurrentContent, PathOf, IsDigest, KnownDigest, NumberedTo;
    assert ProductSound(s.tables, product);
    var n :| NumberedTo(s.tables, product, n);
    CommitNumbers(s, tx, product, n);
    CommitPointer(s, tx, product);
  }

  lemma CommitPointer(s: System, tx: Tx, product: ProductId)
    requires CommitReady(s, tx) && product in s.tables.products && ProductSound(s.tables, product)
    ensures var t' := Committed(s.tables, tx);
            && product in t'.products
            && (t'.products[product].None? <==> forall v | v in t'.versions :: t'.versions[v].product != product)
            && (t'.products[product].Some? ==>
                  t'.products[product].value in t'.versions && t'.versions[t'.products[product].value].product == product)
  {
    hide NumberedTo, IsMaxNo, IsCurrentContent, PathOf, IsDigest, KnownDigest;
    var t' := Committed(s.tables, tx);
    if s.tables.products[product].Some? {
      var v := s.tables.products[product].value;
      assert v in t'.versions && t'.versions[v] == s.tables.versions[v];
    }
    if tx.product == product {
      var w := t'.products[product].value;
      assert w in t'.versions && t'.versions[w].product == product;
    } else if tx.phase.Repointed? {
      assert forall v | v in t'.versions && t'.versions[v].product == product :: v in s.tables.versions;
    }
  }

  /** A commit leaves every other transaction's findings intact. */
  lemma CommitSparesOthers(s: System, tx: Tx, other: Tx, s': System)
    requires CommitReady(s, tx) && TxSound(s, other) && Disjoint(tx, other)
    requires s' == s.(tables := Committed(s.tables, tx), txs := s'.txs)
    requires Resolves(s.tables, other.product) || other.phase.Waiting?
    ensures TxSound(s', other)
  {
    hide PathOf, IsDigest;
    var t, t' := s.tables, s'.tables;
    if HasNo(other.phase) {
      assert t'.products[other.product] == t.products[other.product];
      assert forall v | v in t'.versions && t'.versions[v].product == other.product ::
          v in t.versions && t'.versions[v] == t.versions[v];
      if other.phase.no - 1 != 0 {
        var v :| v in t.versions && t.versions[v].product == other.product && t.versions[v].no == other.phase.no - 1;
        assert t'.versions[v] == t.versions[v];
      }
    }
  }

  lemma CommitKeepsInv(s: System, t: TxId)
    requires Inv(s) && Enabled(s, Commit(t))
    ensures Inv(After(s, Commit(t)))
  {
    var s', tx := After(s, Commit(t)), s.txs[t];
    assert CommitReady(s, tx);
    CommitFiles(s, tx);
    CommitTables(s, tx);
    CommitSparesAll(s, t);
    CommitBounds(s, t);
    hide TablesSound, FilesSound, FormalSound, Disjoint, TxSound, Committed;
  }

  lemma CommitBounds(s: System, t: TxId)
    requires Inv(s) && Enabled(s, Commit(t))
    ensures forall v | v in After(s, Commit(t)).tables.versions :: v < s.nextVersion
    ensures forall f | f in After(s, Commit(t)).tables.files :: f < s.nextFile
  {
    assert TxSound(s, s.txs[t]);
    hide TablesSound, FilesSound, FormalSound, Disjoint, IsMaxNo, IsCurrentContent, KnownDigest, PathOf, IsDigest;
  }

  lemma CommitSparesAll(s: System, t: TxId)
    requires Inv(s) && Enabled(s, Commit(t))
    ensures forall u | u in s.txs && u != t :: TxSound(After(s, Commit(t)), s.txs[u])
  {
    var s', tx := After(s, Commit(t)), s.txs[t];
    assert CommitReady(s, tx);
    forall u | u in s.txs && u != t ensures TxSound(s', s.txs[u]) {
      PointersResolve(s, s.txs[u]);
      assert Disjoint(tx, s.txs[u]);
      hide TablesSound, FilesSound, FormalSound, Disjoint, TxSound, Committed;
      CommitSparesOthers(s, tx, s.txs[u], s');
    }
  }

  /** The error branch for a dangling current pointer is never taken. */
  lemma PointersResolve(s: System, tx: Tx)
    requires TablesSound(s.tables) && TxSound(s, tx)
    ensures tx.phase.Waiting? || Resolves(s.tables, tx.product)
  {
    if !tx.phase.Waiting? {
      assert ProductSound(s.tables, tx.product);
    }
  }

  lemma CreateProductKeepsInv(s: System, product: ProductId)
    requires Inv(s) && Enabled(s, CreateProduct(product))
    ensures Inv(After(s, CreateProduct(product)))
  {
    var s' := After(s, CreateProduct(product));
    var t, t' := s.tables, s'.tables;
    assert NumberedTo(t', product, 0);
    forall p | p in t'.products ensures ProductSound(t', p) {
      if p != product {
        assert ProductSound(t, p);
        var n :| NumberedTo(t, p, n);
        NumberedSame(t, t', p, n);
      }
    }
    forall u | u in s'.txs ensures TxSound(s', s'.txs[u]) {
      NewProductSparesTx(s, product, s.txs[u]);
    }
    hide TxSound, Disjoint, ProductSound, PathOf, IsDigest;
  }

  lemma NumberedSame(t: Tables, t': Tables, product: ProductId, n: nat)
    requires NumberedTo(t, product, n) && t'.versions == t.versions
    ensures NumberedTo(t', product, n)
  {
    forall k | 1 <= k <= n ensures HasNumber(t', product, k) {
      assert HasNumber(t, product, k);
    }
  }

  lemma NewProductSparesTx(s: System, product: ProductId, tx: Tx)
    requires Enabled(s, CreateProduct(product)) && TxSound(s, tx)
    ensures TxSound(After(s, CreateProduct(product)), tx)
  {
    hide PathOf, IsDigest;
    if HasNo(tx.phase) && tx.phase.no > 1 {
      assert HasNumber(s.tables, tx.product, tx.phase.no - 1);
    }
  }

  lemma EventKeepsInv(s: System, e: Event)
    requires Inv(s) && Enabled(s, e)
    ensures Inv(After(s, e))
  {
    hide Inv, Enabled, After;
    match e
    case CreateProduct(product) => CreateProductKeepsInv(s, product);
    case Open(t, product, job) => OpenKeepsInv(s, t, product, job);
    case Lock(t) => LockKeepsInv(s, t);
    case Number(t, no) => NumberKeepsInv(s, t, no);
    case Publish(t) => PublishKeepsInv(s, t);
    case InsertFile(t) => InsertFileKeepsInv(s, t);
    case ReuseFile(t, file) => ReuseFileKeepsInv(s, t, file);
    case InsertVersion(t) => InsertVersionKeepsInv(s, t);
    case Repoint(t) => RepointKeepsInv(s, t);
    case Commit(t) => CommitKeepsInv(s, t);
    case Abort(t) => AbortKeepsInv(s, t);
  }

  predicate Legal(s: System, es: seq<Event>)
    decreases |es|
  {
    es == [] || (Enabled(s, es[0]) && Legal(After(s, es[0]), es[1..]))
  }

  function Exec(s: System, es: seq<Event>): System
    requires Legal(s, es)
    decreases |es|
  {
    if es == [] then s else Exec(After(s, es[0]), es[1..])
  }

  lemma {:induction false} RunKeepsInv(s: System, es: seq<Event>)
    requires Inv(s) && Legal(s, es)
    ensures Inv(Exec(s, es))
    decreases |es|
  {
    hide Inv, Enabled, After;
    if es != [] {
      EventKeepsInv(s, es[0]);
      RunKeepsInv(After(s, es[0]), es[1..]);
    }
  }

  // ---------------------------------------------------------------------------
  // What holds after every interleaving
  // ---------------------------------------------------------------------------

  /**
   After any interleaving of uploads, restores, rollbacks and cancellations: every product's
   versions are numbered exactly 1 to n, its pointer is null exactly when n is 0 and
   otherwise names one of its own versions, and every file row has its content in formal
   storage.
   */
  lemma EveryInterleavingIsSound(es: seq<Event>, product: ProductId)
    requires Legal(INITIAL, es) && product in Exec(INITIAL, es).tables.products
    ensures var t := Exec(INITIAL, es).tables;
            exists n :: && NumberedTo(t, product, n)
                        && (t.products[product].None? <==> n == 0)
                        && Resolves(t, product)
    ensures FilesSound(Exec(INITIAL, es).tables, Exec(INITIAL, es).formal)
  {
    assert Inv(INITIAL);
    RunKeepsInv(INITIAL, es);
    var t := Exec(INITIAL, es).tables;
    assert ProductSound(t, product);
    var n :| NumberedTo(t, product, n);
    if n > 0 {
      assert HasNumber(t, product, n);
    }
  }

  /** An upload done in one piece on the tables as they are. */
  ghost predicate AtomicUpload(t: Tables, t': Tables, product: ProductId, sha: Sha, size: nat,
                               file: FileId, version: VersionId) {
    && product in t.products && version !in t.versions && IsDigest(sha)
    && !IsCurrentContent(t, product, sha, size)
    && (exists n: nat :: NumberedTo(t, product, n) && t'.versions == t.versions[version := VersionRow(product, file, n + 1)])
    && t'.products == t.products[product := Some(version)]
    && (if KnownDigest(t, sha)
        then t'.files == t.files && file in t.files && t.files[file] == FileRow(sha, size, PathOf(sha))
        else file !in t.files && t'.files == t.files[file := FileRow(sha, size, PathOf(sha))])
  }

  /**
   A commit has the effect of the whole upload carried out atomically at that moment: the
   number chosen, the duplicate check and the file row found earlier are all still right.
   */
  lemma CommitIsAtomic(s: System, t: TxId)
    requires Inv(s) && Enabled(s, Commit(t)) && s.txs[t].job.Upload?
    ensures s.txs[t].phase.Repointed?
    ensures var tx := s.txs[t];
            AtomicUpload(s.tables, After(s, Commit(t)).tables, tx.product, tx.job.sha, tx.job.size,
                         tx.phase.file, tx.phase.version)
  {
    assert CommitReady(s, s.txs[t]) && ProductSound(s.tables, s.txs[t].product);
    CommittedUpload(s, s.txs[t]);
    hide Inv, CommitReady, ProductSound, AtomicUpload, Committed;
  }

  lemma CommittedUpload(s: System, tx: Tx)
    requires CommitReady(s, tx) && tx.job.Upload? && tx.product in s.tables.products && ProductSound(s.tables, tx.product)
    ensures tx.phase.Repointed?
    ensures AtomicUpload(s.tables, Committed(s.tables, tx), tx.product, tx.job.sha, tx.job.size,
                         tx.phase.file, tx.phase.version)
  {
    hide PathOf, IsDigest, IsCurrentContent, NumberedTo, IsMaxNo, KnownDigest;
    var n: nat :| NumberedTo(s.tables, tx.product, n);
    NextNumber(s.tables, tx.product, n, tx.phase.no - 1);
    if !tx.phase.isNew {
      assert s.tables.files[tx.phase.file].sha == tx.job.sha;
      FileIsKnown(s.tables, tx.phase.file);
    }
  }

  lemma FileIsKnown(t: Tables, file: FileId)
    requires file in t.files
    ensures KnownDigest(t, t.files[file].sha)
  {
  }

  lemma CommitOnlyAdds(s: System, tx: Tx)
    requires TxSound(s, tx)
    ensures var t, t' := s.tables, Committed(s.tables, tx);
            && (forall v | v in t.versions :: v in t'.versions && t'.versions[v] == t.versions[v])
            && (forall f | f in t.files :: f in t'.files && t'.files[f] == t.files[f])
  {
    hide PathOf, IsDigest, IsMaxNo, IsCurrentContent, KnownDigest;
  }

  /** Only a commit or a new product changes the tables; committed versions and files never change. */
  lemma HistoryIsAppendOnly(s: System, e: Event)
    requires Inv(s) && Enabled(s, e)
    ensures !e.Commit? && !e.CreateProduct? ==> After(s, e).tables == s.tables
    ensures var t, t' := s.tables, After(s, e).tables;
            && (forall v | v in t.versions :: v in t'.versions && t'.versions[v] == t.versions[v])
            && (forall f | f in t.files :: f in t'.files && t'.files[f] == t.files[f])
    ensures forall path | path in s.formal ::
              path in After(s, e).formal && After(s, e).formal[path] == s.formal[path]
    ensures forall path | path in After(s, e).formal && path !in s.formal ::
              e.Publish? && path == PathOf(s.txs[e.t].job.sha)
  {
    hide PathOf, IsDigest;
    if e.Commit? {
      assert TxSound(s, s.txs[e.t]);
      CommitOnlyAdds(s, s.txs[e.t]);
    }
    hide Inv, Committed;
  }

  // ---------------------------------------------------------------------------
  // Branches that raise RuntimeError
  // ---------------------------------------------------------------------------

  datatype Public =
    | Missing
    | Disabled
    | Unuploaded
    | Available(path: string, size: nat)
    | UnresolvedMetadata
    | MissingFile

  /** The public read: disabled is checked before the current version. */
  function ResolvePublic(t: Tables, formal: map<string, Sha>, product: Option<ProductId>, disabled: bool): Public {
    if product.None? || product.value !in t.products then Missing
    else if disabled then Disabled
    else if t.products[product.value].None? then Unuploaded
    else
      var v := t.products[product.value].value;
      if v !in t.versions || t.versions[v].product != product.value || t.versions[v].file !in t.files
      then UnresolvedMetadata
      else
        var row := t.files[t.versions[v].file];
        if row.path in formal then Available(row.path, row.size) else MissingFile
  }

  /** No public read can fail: it serves the current version's own content, or says why there is none. */
  lemma PublicReadsNeverFail(s: System, product: ProductId, disabled: bool)
    requires Inv(s) && product in s.tables.products
    ensures var r := ResolvePublic(s.tables, s.formal, Some(product), disabled);
            if disabled then r == Disabled
            else if s.tables.products[product].None? then r == Unuploaded
            else && r.Available? && r.path in s.formal
                 && IsCurrentContent(s.tables, product, s.formal[r.path], r.size)
  {
    assert ProductSound(s.tables, product);
    hide TxSound, Disjoint, NumberedTo, ProductSound, PathOf, IsDigest;
  }

  /** An upload counts as a duplicate exactly when the public read serves that content, of that size, already. */
  lemma DuplicateIffServed(s: System, product: ProductId, sha: Sha, size: nat)
    requires Inv(s) && product in s.tables.products && IsDigest(sha)
    ensures IsCurrentContent(s.tables, product, sha, size)
            <==> ResolvePublic(s.tables, s.formal, Some(product), false) == Available(PathOf(sha), size)
  {
    assert ProductSound(s.tables, product);
    if s.tables.products[product].Some? {
      var file := s.tables.versions[s.tables.products[product].value].file;
      ServedPath(s, file, sha);
    }
    hide Inv, PathOf, IsDigest, NumberedTo;
  }

  lemma ServedPath(s: System, file: FileId, sha: Sha)
    requires FilesSound(s.tables, s.formal) && file in s.tables.files && IsDigest(sha)
    ensures var row := s.tables.files[file];
            row.path in s.formal && (row.path == PathOf(sha) <==> row.sha == sha)
  {
    var row := s.tables.files[file];
    if row.path == PathOf(sha) {
      PathsAreDistinct(row.sha, sha);
    }
  }

  /**
   After a conflicting insert the committed row is found, and it disagrees with the upload
   only if two contents of different size have the same digest.
   */
  lemma ReuseFailsOnlyOnCollision(s: System, t: TxId)
    requires Inv(s) && t in s.txs && s.txs[t].phase.Published? && KnownDigest(s.tables, s.txs[t].job.sha)
    ensures exists f | f in s.tables.files ::
              && IsFileOf(s.tables, f, s.txs[t].job.sha)
              && (Enabled(s, ReuseFile(t, f)) <==> s.tables.files[f].size == s.txs[t].job.size)
  {
    assert TxSound(s, s.txs[t]);
    var f :| f in s.tables.files && s.tables.files[f].sha == s.txs[t].job.sha;
    assert IsFileOf(s.tables, f, s.txs[t].job.sha);
  }

  /** A restore that found its target can always resolve the version it restores from. */
  lemma RestoreFindsItsOrigin(s: System, t: TxId)
    requires Inv(s) && t in s.txs && s.txs[t].phase.Locked? && s.txs[t].job.Restore?
    ensures var v := s.txs[t].job.version;
            Enabled(s, Repoint(t)) <==> v in s.tables.versions && s.tables.versions[v].product == s.txs[t].product
  {
    hide TxSound, ProductSound, FilesSound, FormalSound, Disjoint, Resolves;
    assert TxSound(s, s.txs[t]);
    PointersResolve(s, s.txs[t]);
    assert s.txs[t].product in s.tables.products by {
      LockedProductExists(s, s.txs[t]);
    }
    assert ProductSound(s.tables, s.txs[t].product);
    hide Inv, TablesSound;
    if s.txs[t].job.version in s.tables.versions {
      OwnVersionMeansPointer(s.tables, s.txs[t].product, s.txs[t].job.version);
    }
  }

  predicate OwnVersion(t: Tables, product: ProductId, v: VersionId) {
    v in t.versions && t.versions[v].product == product
  }

  /**
   A restore commits exactly one change: the product's pointer names the version asked for. Versions, files, formal
   storage, the id sequences and every other transaction are as they were.
   */
  lemma RestoreIsAtomic(s: System, t: TxId)
    requires Inv(s) && Enabled(s, Commit(t)) && s.txs[t].job.Restore?
    ensures var product, v := s.txs[t].product, s.txs[t].job.version;
            && product in s.tables.products && OwnVersion(s.tables, product, v)
            && After(s, Commit(t))
               == s.(tables := s.tables.(products := s.tables.products[product := Some(v)]), txs := s.txs - {t})
  {
    hide PathOf, IsDigest, KnownDigest, IsMaxNo, IsCurrentContent, TablesSound, FilesSound, FormalSound, Disjoint;
    assert TxSound(s, s.txs[t]);
  }

  /** After it the public read serves the restored version's own file, with the content that version was given. */
  lemma RestoredVersionIsServed(s: System, t: TxId)
    requires Inv(s) && Enabled(s, Commit(t)) && s.txs[t].job.Restore?
    requires OwnVersion(s.tables, s.txs[t].product, s.txs[t].job.version)
    ensures var s' := After(s, Commit(t));
            var file := s.tables.versions[s.txs[t].job.version].file;
            && file in s.tables.files
            && var row := s.tables.files[file];
               && ResolvePublic(s'.tables, s'.formal, Some(s.txs[t].product), false) == Available(row.path, row.size)
               && row.path in s'.formal && s'.formal[row.path] == row.sha
  {
    RestoreIsAtomic(s, t);
    hide After, Enabled, TxSound, Disjoint, ProductSound, FormalSound, PathOf, IsDigest;
  }

  lemma LockedProductExists(s: System, tx: Tx)
    requires TxSound(s, tx) && !tx.phase.Waiting?
    ensures tx.product in s.tables.products
  {
  }

  lemma OwnVersionMeansPointer(t: Tables, product: ProductId, v: VersionId)
    requires product in t.products && ProductSound(t, product) && v in t.versions
    ensures t.versions[v].product == product ==> t.products[product].Some?
  {
  }

  // ---------------------------------------------------------------------------
  // No deadlock
  // ---------------------------------------------------------------------------

  /** The transaction's next statement would run now: it waits for nobody. */
  ghost predicate CanProceed(s: System, t: TxId)
    requires t in s.txs
  {
    var tx := s.txs[t];
    match tx.phase
    case Waiting => RowFree(s, t, tx.product)
    case Published(_) => tx.job.Restore? || KnownDigest(s.tables, tx.job.sha) || DigestFree(s, t, tx.job.sha)
    case _ => true
  }

  /** Waiting never goes in a circle: while any transaction is open, some transaction can proceed. */
  lemma NoDeadlock(s: System)
    requires Inv(s) && s.txs != map[]
    ensures exists t | t in s.txs :: CanProceed(s, t)
  {
    hide Inv, KnownDigest;
    if t :| t in s.txs && HasFile(s.txs[t].phase) {
      assert CanProceed(s, t);
    } else if t :| t in s.txs && !s.txs[t].phase.Waiting? {
      assert CanProceed(s, t);
    } else {
      var t :| t in s.txs;
      assert CanProceed(s, t);
    }
  }
}
