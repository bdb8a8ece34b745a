/**
 The key set of a restore point, computed three times by separate code: by the backup that
 completes the point, by the check of its completion marker, and by the retention record
 that deletion trusts. Keys are concrete strings; sorted, duplicate-free key lists are sets.
 */
module FinalizeKeys {
  import opened Basics
  import opened Text

  // ---------------------------------------------------------------------------
  // Text
  // ---------------------------------------------------------------------------

  predicate IsHexDigit(ch: char) {
    '0' <= ch <= '9' || 'a' <= ch <= 'f'
  }

  predicate IsSha(s: string) {
    |s| == 64 && forall ch | ch in s :: IsHexDigit(ch)
  }

  predicate IsAlnum(ch: char) {
    '0' <= ch <= '9' || 'a' <= ch <= 'z' || 'A' <= ch <= 'Z'
  }

  /** The identifier pattern both validators demand of a recipient key id. */
  predicate IsKeyId(s: string) {
    && 1 <= |s| <= 128 && IsAlnum(s[0])
    && forall ch | ch in s :: IsAlnum(ch) || ch == '.' || ch == '_' || ch == '-'
  }

  /** The weaker check the backup itself makes. */
  predicate IsBuilderKeyId(s: string) {
    s != "" && forall ch | ch in s :: ch != '/' && ch != '\\' && ch != ' ' && ch != '\t' && ch != '\n'
  }

  predicate IsBlank(s: string) {
    Strip(s) == ""
  }

  predicate IsBackupId(s: string) {
    |s| > 0 && forall ch | ch in s :: IsAlnum(ch) || ch == '-'
  }

  predicate StartsWith(s: string, p: string) {
    |p| <= |s| && s[..|p|] == p
  }

  predicate EndsWith(s: string, p: string) {
    |p| <= |s| && s[|s| - |p|..] == p
  }

  function RemoveSuffix(s: string, p: string): string {
    if EndsWith(s, p) then s[..|s| - |p|] else s
  }

  /** Path components. */
  function Split(s: string): seq<string> {
    if s == "" then [""]
    else if s[0] == '/' then [""] + Split(s[1..])
    else var rest := Split(s[1..]); [[s[0]] + rest[0]] + rest[1..]
  }

  predicate NoParent(s: string) {
    ".." !in Split(s)
  }

  lemma {:induction false} SplitPlain(s: string)
    requires '/' !in s
    ensures Split(s) == [s]
  {
    if s != "" {
      SplitPlain(s[1..]);
      assert [s[0]] + s[1..] == s;
    }
  }

  lemma {:induction false} SplitJoin(a: string, b: string)
    ensures Split(a + "/" + b) == Split(a) + Split(b)
  {
    if a == "" {
      assert a + "/" + b == "/" + b;
      assert ("/" + b)[1..] == b;
    } else {
      assert (a + "/" + b)[1..] == a[1..] + "/" + b;
      SplitJoin(a[1..], b);
    }
  }

  lemma JoinNoParent(a: string, b: string)
    requires NoParent(a) && NoParent(b)
    ensures NoParent(a + "/" + b)
  {
    SplitJoin(a, b);
  }

  lemma PlainNoParent(s: string)
    requires '/' !in s && s != ".."
    ensures NoParent(s)
  {
    SplitPlain(s);
  }

  // ---------------------------------------------------------------------------
  // Keys
  // ---------------------------------------------------------------------------

  function PointRoot(prefix: string, id: string): string {
    prefix + "/" + ("points" + "/" + id)
  }

  function ManifestKey(prefix: string, id: string): string { PointRoot(prefix, id) + "/" + "manifest.json.age" }

  function DatabaseKey(prefix: string, id: string): string { PointRoot(prefix, id) + "/" + "database.dump.age" }

  function ConfigKey(prefix: string, id: string): string { PointRoot(prefix, id) + "/" + "config.tar.age" }

  function PointKeys(prefix: string, id: string): set<string> {
    {ManifestKey(prefix, id), DatabaseKey(prefix, id), ConfigKey(prefix, id)}
  }

  function CasFile(prefix: string, sha: string, file: string): string {
    prefix + "/" + ("objects" + "/" + ("sha256" + "/" + (sha + "/" + file)))
  }

  function CasKey(prefix: string, sha: string, kid: string): string { CasFile(prefix, sha, kid + ".age") }

  function CasMetaKey(prefix: string, sha: string, kid: string): string { CasFile(prefix, sha, kid + ".json") }

  // ---------------------------------------------------------------------------
  // What a backup records
  // ---------------------------------------------------------------------------

  datatype FileItem = FileItem(path: string, size: int, sha: string)

  datatype Object = Object(
    name: string, backupId: string, key: string,
    plainSize: int, plainSha: string, cipherSize: int, cipherSha: string)

  datatype Manifest = Manifest(
    backupId: string, started: int, frozen: int, completed: int,
    kid: string, files: seq<FileItem>, objects: seq<Object>)

  datatype Marker = Marker(
    backupId: string, frozen: int, verified: int, manifestKey: string,
    manifestSize: int, manifestSha: string, kid: string, keys: set<string>)

  /** Size and digest of a plaintext and of its ciphertext. */
  datatype Prints = Prints(plainSize: int, plainSha: string, cipherSize: int, cipherSha: string)

  /** Everything finalize observes while it runs. */
  datatype Backup = Backup(
    prefix: string, id: string, kid: string,
    files: seq<FileItem>, ciphers: seq<Prints>, database: Prints, config: Prints, manifest: Prints,
    started: int, frozen: int, completed: int, verified: int)

  function FileObject(b: Backup, i: nat): Object
    requires i < |b.files| == |b.ciphers|
  {
    Object("file:" + b.files[i].path, b.id, CasKey(b.prefix, b.files[i].sha, b.kid),
           b.files[i].size, b.files[i].sha, b.ciphers[i].cipherSize, b.ciphers[i].cipherSha)
  }

  function DataObject(b: Backup, name: string, key: string, p: Prints): Object {
    Object(name, b.id, key, p.plainSize, p.plainSha, p.cipherSize, p.cipherSha)
  }

  function Objects(b: Backup): seq<Object>
    requires |b.files| == |b.ciphers|
  {
    [DataObject(b, "database", DatabaseKey(b.prefix, b.id), b.database),
     DataObject(b, "config", ConfigKey(b.prefix, b.id), b.config)]
    + seq(|b.files|, i requires 0 <= i < |b.files| => FileObject(b, i))
  }

  function ManifestOf(b: Backup): Manifest
    requires |b.files| == |b.ciphers|
  {
    Manifest(b.id, b.started, b.frozen, b.completed, b.kid, b.files, Objects(b))
  }

  /** The completion key set: every object key, the manifest key, and a metadata key per file. */
  function CompletionKeys(b: Backup): set<string>
    requires |b.files| == |b.ciphers|
  {
    var objects := Objects(b);
    (set o | o in objects :: o.key)
    + {ManifestKey(b.prefix, b.id)}
    + (set o | o in objects && StartsWith(o.name, "file:") :: RemoveSuffix(o.key, ".age") + ".json")
  }

  function MarkerOf(b: Backup): Marker
    requires |b.files| == |b.ciphers|
  {
    Marker(b.id, b.frozen, b.verified, ManifestKey(b.prefix, b.id),
           b.manifest.cipherSize, b.manifest.cipherSha, b.kid, CompletionKeys(b))
  }

  // ---------------------------------------------------------------------------
  // The validators
  // ---------------------------------------------------------------------------

  predicate ValidFile(f: FileItem) {
    f.path != "" && !StartsWith(f.path, "/") && NoParent(f.path) && IsSha(f.sha) && f.size >= 0
  }

  predicate ValidObject(m: Manifest, o: Object) {
    && o.name != "" && o.key != "" && !StartsWith(o.key, "/") && NoParent(o.key)
    && IsSha(o.plainSha) && IsSha(o.cipherSha) && o.plainSize >= 0 && o.cipherSize >= 0
    && o.backupId == m.backupId
  }

  /** The manifest check, as far as files, objects, times and the key id are concerned. */
  predicate ManifestValid(m: Manifest) {
    && IsBackupId(m.backupId) && !IsBlank(m.kid)
    && m.started != m.frozen && m.frozen != m.completed && m.started != m.completed
    && (forall f | f in m.files :: ValidFile(f))
    && (forall i, j | 0 <= i < j < |m.files| :: m.files[i].path != m.files[j].path)
    && (forall o | o in m.objects :: ValidObject(m, o))
    && (forall i, j | 0 <= i < j < |m.objects| ::
          m.objects[i].name != m.objects[j].name && m.objects[i].key != m.objects[j].key)
    && (exists o | o in m.objects :: o.name == "database") && (exists o | o in m.objects :: o.name == "config")
    && (forall f | f in m.files :: exists o | o in m.objects :: o.name == "file:" + f.path)
  }

  /** What an object's key must be, given its name; None for a name the record does not know. */
  function ExpectedKey(m: Manifest, prefix: string, o: Object): Option<string> {
    if o.name == "database" then Some(DatabaseKey(prefix, m.backupId))
    else if o.name == "config" then Some(ConfigKey(prefix, m.backupId))
    else if StartsWith(o.name, "file:") then Some(CasKey(prefix, o.plainSha, m.kid))
    else None
  }

  function MetaKeyOf(m: Manifest, prefix: string, o: Object): set<string> {
    if o.name != "database" && o.name != "config" && StartsWith(o.name, "file:")
    then {RemoveSuffix(CasKey(prefix, o.plainSha, m.kid), ".age") + ".json"}
    else {}
  }

  /** The keys deletion may use, or None when the record is refused. */
  function RecordKeys(m: Manifest, prefix: string, id: string): Option<set<string>> {
    if ManifestValid(m) && m.backupId == id && prefix != "" && NoParent(prefix) && IsKeyId(m.kid)
       && forall o | o in m.objects :: ExpectedKey(m, prefix, o) == Some(o.key)
    then Some(PointKeys(prefix, id) + ObjectKeys(m, prefix, m.objects))
    else None
  }

  /** The keys of some objects, and the metadata keys beside those of files. */
  function ObjectKeys(m: Manifest, prefix: string, objects: seq<Object>): set<string> {
    (set o | o in objects :: o.key) + (set o, k | o in objects && k in MetaKeyOf(m, prefix, o) :: k)
  }

  datatype Suffix = Age | JsonSuffix

  /** The CAS pattern, matched against a whole key. */
  function CasMatch(prefix: string, kid: string, key: string): Option<(string, Suffix)> {
    var p := prefix + "/objects/sha256/";
    if |key| < |p| + 64 || !StartsWith(key, p) || !IsSha(key[|p|..|p| + 64]) then None
    else if key[|p| + 64..] == "/" + kid + ".age" then Some((key[|p|..|p| + 64], Age))
    else if key[|p| + 64..] == "/" + kid + ".json" then Some((key[|p|..|p| + 64], JsonSuffix))
    else None
  }

  predicate MarkerValid(m: Marker, id: string, prefix: string) {
    var root := PointRoot(prefix, id);
    && IsBackupId(id) && m.backupId == id && m.verified > m.frozen
    && IsKeyId(m.kid) && m.manifestSize > 0 && IsSha(m.manifestSha)
    && prefix != "" && NoParent(prefix) && m.manifestKey == ManifestKey(prefix, id)
    && m.keys != {}
    && (set k | k in m.keys && StartsWith(k, root + "/")) == PointKeys(prefix, id)
    && (forall k | k in m.keys && k !in PointKeys(prefix, id) :: CasMatch(prefix, m.kid, k).Some?)
    && (forall k | k in m.keys && k !in PointKeys(prefix, id) :: PairComplete(m, prefix, CasMatch(prefix, m.kid, k)))
  }

  /** The digest of a CAS key occurs with both suffixes. */
  predicate PairComplete(m: Marker, prefix: string, c: Option<(string, Suffix)>) {
    c.Some? ==>
      && (exists k | k in m.keys :: CasMatch(prefix, m.kid, k) == Some((c.value.0, Age)))
      && (exists k | k in m.keys :: CasMatch(prefix, m.kid, k) == Some((c.value.0, JsonSuffix)))
  }

  // ---------------------------------------------------------------------------
  // Facts about keys
  // ---------------------------------------------------------------------------

  lemma CasKeyShape(prefix: string, sha: string, file: string)
    ensures CasFile(prefix, sha, file) == (prefix + "/objects/sha256/") + sha + ("/" + file)
  {
  }

  /** The CAS pattern recovers the digest and the suffix of a CAS key. */
  lemma CasMatches(prefix: string, sha: string, kid: string)
    requires IsSha(sha)
    ensures CasMatch(prefix, kid, CasKey(prefix, sha, kid)) == Some((sha, Age))
    ensures CasMatch(prefix, kid, CasMetaKey(prefix, sha, kid)) == Some((sha, JsonSuffix))
  {
    var p := prefix + "/objects/sha256/";
    CasKeyShape(prefix, sha, kid + ".age");
    CasKeyShape(prefix, sha, kid + ".json");
    assert "/" + (kid + ".age") == "/" + kid + ".age";
    assert "/" + (kid + ".json") == "/" + kid + ".json";
    MatchAt(p, sha, "/" + kid + ".age", CasKey(prefix, sha, kid));
    MatchAt(p, sha, "/" + kid + ".json", CasMetaKey(prefix, sha, kid));
    assert |"/" + kid + ".age"| != |"/" + kid + ".json"|;
  }

  lemma MatchAt(p: string, sha: string, tail: string, key: string)
    requires key == p + sha + tail && |sha| == 64
    ensures StartsWith(key, p) && |key| >= |p| + 64 && key[|p|..|p| + 64] == sha && key[|p| + 64..] == tail
  {
  }

  /** Different digests have different keys. */
  lemma CasKeyInjective(prefix: string, a: string, b: string, kid: string)
    requires IsSha(a) && IsSha(b) && CasKey(prefix, a, kid) == CasKey(prefix, b, kid)
    ensures a == b
  {
    CasMatches(prefix, a, kid);
    CasMatches(prefix, b, kid);
  }

  /** No CAS key lies under a point's root. */
  lemma CasOutsidePoint(prefix: string, id: string, sha: string, file: string)
    ensures !StartsWith(CasFile(prefix, sha, file), PointRoot(prefix, id) + "/")
  {
    var key, root := CasFile(prefix, sha, file), PointRoot(prefix, id) + "/";
    CasKeyShape(prefix, sha, file);
    assert key[|prefix| + 1] == 'o';
    assert root[|prefix| + 1] == 'p';
    PrefixAt(key, root, |prefix| + 1);
  }

  lemma PrefixAt(s: string, p: string, i: nat)
    requires i < |p|
    ensures StartsWith(s, p) ==> s[i] == p[i]
  {
  }

  lemma PointKeysInside(prefix: string, id: string, k: string)
    requires k in PointKeys(prefix, id)
    ensures StartsWith(k, PointRoot(prefix, id) + "/")
  {
    var root := PointRoot(prefix, id);
    assert k == root + "/" + "manifest.json.age" || k == root + "/" + "database.dump.age" || k == root + "/" + "config.tar.age";
    assert k[..|root| + 1] == root + "/";
  }

  lemma MetaFromCas(prefix: string, sha: string, kid: string)
    ensures RemoveSuffix(CasKey(prefix, sha, kid), ".age") + ".json" == CasMetaKey(prefix, sha, kid)
  {
    var stem := CasFile(prefix, sha, kid);
    assert CasKey(prefix, sha, kid) == stem + ".age";
    assert CasMetaKey(prefix, sha, kid) == stem + ".json";
    assert (stem + ".age")[|stem|..] == ".age" && (stem + ".age")[..|stem|] == stem;
  }

  lemma CasNoParent(prefix: string, sha: string, kid: string)
    requires NoParent(prefix) && IsSha(sha) && IsBuilderKeyId(kid)
    ensures NoParent(CasKey(prefix, sha, kid))
  {
    var last := kid + ".age";
    assert last[|last| - 1] == 'e';
    assert '/' !in last && '/' !in sha && sha != "..";
    hide NoParent, IsSha;
    PlainNoParent(last);
    PlainNoParent(sha);
    PlainNoParent("sha256");
    PlainNoParent("objects");
    JoinNoParent(sha, last);
    JoinNoParent("sha256", sha + "/" + last);
    JoinNoParent("objects", "sha256" + "/" + (sha + "/" + last));
    JoinNoParent(prefix, "objects" + "/" + ("sha256" + "/" + (sha + "/" + last)));
  }

  lemma PointNoParent(prefix: string, id: string, name: string)
    requires NoParent(prefix) && IsBackupId(id) && '/' !in name && name != ".."
    ensures NoParent(PointRoot(prefix, id) + "/" + name)
  {
    assert id[0] in id && id[0] != '.' && '/' !in id;
    hide NoParent;
    PlainNoParent(id);
    PlainNoParent("points");
    PlainNoParent(name);
    JoinNoParent("points", id);
    JoinNoParent(prefix, "points" + "/" + id);
    JoinNoParent(PointRoot(prefix, id), name);
  }

  // ---------------------------------------------------------------------------
  // A backup's own documents
  // ---------------------------------------------------------------------------

  predicate ValidPrints(p: Prints) {
    p.plainSize >= 0 && p.cipherSize >= 0 && IsSha(p.plainSha) && IsSha(p.cipherSha)
  }

  /** What the inventory, the encryptor and the constructor guarantee. */
  predicate WellFormed(b: Backup) {
    && b.prefix != "" && !StartsWith(b.prefix, "/") && NoParent(b.prefix)
    && IsBackupId(b.id) && IsBuilderKeyId(b.kid)
    && |b.ciphers| == |b.files|
    && (forall f | f in b.files :: ValidFile(f))
    && (forall i, j | 0 <= i < j < |b.files| :: b.files[i].path != b.files[j].path)
    && (forall c | c in b.ciphers :: ValidPrints(c))
    && ValidPrints(b.database) && ValidPrints(b.config) && ValidPrints(b.manifest) && b.manifest.cipherSize > 0
  }

  predicate DistinctDigests(b: Backup) {
    forall i, j | 0 <= i < j < |b.files| :: b.files[i].sha != b.files[j].sha
  }

  predicate DistinctTimes(b: Backup) {
    b.started != b.frozen && b.frozen != b.completed && b.started != b.completed
  }

  /** The key set by its meaning: three point keys, and two keys per distinct content. */
  function PointAndContentKeys(b: Backup): set<string> {
    PointKeys(b.prefix, b.id)
    + (set f | f in b.files :: CasKey(b.prefix, f.sha, b.kid))
    + (set f | f in b.files :: CasMetaKey(b.prefix, f.sha, b.kid))
  }

  lemma ObjectAt(b: Backup, i: nat)
    requires |b.files| == |b.ciphers| && i < |b.files| + 2
    ensures |Objects(b)| == |b.files| + 2
    ensures Objects(b)[i] == if i == 0 then DataObject(b, "database", DatabaseKey(b.prefix, b.id), b.database)
                             else if i == 1 then DataObject(b, "config", ConfigKey(b.prefix, b.id), b.config)
                             else FileObject(b, i - 2)
  {
  }

  lemma ObjectCases(b: Backup, o: Object)
    requires |b.files| == |b.ciphers|
    ensures o in Objects(b) <==>
            || o == DataObject(b, "database", DatabaseKey(b.prefix, b.id), b.database)
            || o == DataObject(b, "config", ConfigKey(b.prefix, b.id), b.config)
            || exists i | 0 <= i < |b.files| :: o == FileObject(b, i)
  {
    var objects := Objects(b);
    ObjectAt(b, 0);
    if o in objects {
      var i :| 0 <= i < |objects| && objects[i] == o;
      ObjectAt(b, i);
      if i >= 2 { assert o == FileObject(b, i - 2); }
    }
    assert objects[0] == DataObject(b, "database", DatabaseKey(b.prefix, b.id), b.database);
    assert objects[1] == DataObject(b, "config", ConfigKey(b.prefix, b.id), b.config);
    if i :| 0 <= i < |b.files| && o == FileObject(b, i) {
      ObjectAt(b, i + 2);
      assert objects[i + 2] == o;
    }
  }

  lemma FileObjectFacts(b: Backup, i: nat)
    requires |b.files| == |b.ciphers| && i < |b.files|
    ensures var o := FileObject(b, i);
            && StartsWith(o.name, "file:") && o.name[5..] == b.files[i].path
            && o.name != "database" && o.name != "config"
            && o.key == CasKey(b.prefix, b.files[i].sha, b.kid) && o.plainSha == b.files[i].sha
  {
    var name := "file:" + b.files[i].path;
    assert name[..5] == "file:" && name[5..] == b.files[i].path && name[0] == 'f';
  }

  /** The completion keys are the point's three keys and two keys per distinct content. */
  lemma CompletionKeysMean(b: Backup)
    requires |b.files| == |b.ciphers|
    ensures CompletionKeys(b) == PointAndContentKeys(b)
  {
    var objects := Objects(b);
    forall k ensures k in CompletionKeys(b) <==> k in PointAndContentKeys(b) {
      if k in CompletionKeys(b) {
        CompletionKeyIsMeant(b, k);
      }
      if k in PointAndContentKeys(b) {
        MeantKeyIsCompletion(b, k);
      }
    }
  }

  lemma CompletionKeyIsMeant(b: Backup, k: string)
    requires |b.files| == |b.ciphers| && k in CompletionKeys(b)
    ensures k in PointAndContentKeys(b)
  {
    var objects := Objects(b);
    if o :| o in objects && (o.key == k || (StartsWith(o.name, "file:") && RemoveSuffix(o.key, ".age") + ".json" == k)) {
      ObjectCases(b, o);
      if i :| 0 <= i < |b.files| && o == FileObject(b, i) {
        FileObjectFacts(b, i);
        MetaFromCas(b.prefix, b.files[i].sha, b.kid);
        assert b.files[i] in b.files;
      } else {
        assert "database"[0] == 'd' && "config"[0] == 'c' && "file:"[0] == 'f';
        PrefixAt(o.name, "file:", 0);
      }
    }
  }

  lemma MeantKeyIsCompletion(b: Backup, k: string)
    requires |b.files| == |b.ciphers| && k in PointAndContentKeys(b)
    ensures k in CompletionKeys(b)
  {
    var objects := Objects(b);
    if f :| f in b.files && (k == CasKey(b.prefix, f.sha, b.kid) || k == CasMetaKey(b.prefix, f.sha, b.kid)) {
      var i :| 0 <= i < |b.files| && b.files[i] == f;
      FileObjectFacts(b, i);
      ObjectCases(b, FileObject(b, i));
      MetaFromCas(b.prefix, f.sha, b.kid);
    } else {
      ObjectCases(b, DataObject(b, "database", DatabaseKey(b.prefix, b.id), b.database));
      ObjectCases(b, DataObject(b, "config", ConfigKey(b.prefix, b.id), b.config));
    }
  }

  lemma PrefixedKeyOk(prefix: string, rest: string)
    requires prefix != "" && !StartsWith(prefix, "/")
    ensures prefix + rest != "" && !StartsWith(prefix + rest, "/")
  {
    assert (prefix + rest)[..1] == prefix[..1];
  }

  lemma CasKeyOk(prefix: string, sha: string, kid: string)
    requires prefix != "" && !StartsWith(prefix, "/") && NoParent(prefix) && IsSha(sha) && IsBuilderKeyId(kid)
    ensures var key := CasKey(prefix, sha, kid); key != "" && !StartsWith(key, "/") && NoParent(key)
  {
    CasNoParent(prefix, sha, kid);
    hide NoParent, IsSha;
    var rest := "/" + ("objects" + "/" + ("sha256" + "/" + (sha + "/" + (kid + ".age"))));
    PrefixedKeyOk(prefix, rest);
    assert CasKey(prefix, sha, kid) == prefix + rest;
  }

  lemma PointKeyOk(prefix: string, id: string, name: string)
    requires prefix != "" && !StartsWith(prefix, "/") && NoParent(prefix) && IsBackupId(id) && '/' !in name && name != ".."
    ensures var key := PointRoot(prefix, id) + "/" + name; key != "" && !StartsWith(key, "/") && NoParent(key)
  {
    PointNoParent(prefix, id, name);
    hide NoParent;
    var rest := "/" + ("points" + "/" + id) + "/" + name;
    PrefixedKeyOk(prefix, rest);
    assert PointRoot(prefix, id) + "/" + name == prefix + rest;
  }

  lemma ObjectsAreValid(b: Backup, o: Object)
    requires WellFormed(b) && o in Objects(b)
    ensures ValidObject(ManifestOf(b), o)
  {
    ObjectCases(b, o);
    hide NoParent, IsSha, IsBuilderKeyId, IsBackupId;
    if i :| 0 <= i < |b.files| && o == FileObject(b, i) {
      FileObjectFacts(b, i);
      assert b.files[i] in b.files && b.ciphers[i] in b.ciphers;
      CasKeyOk(b.prefix, b.files[i].sha, b.kid);
    } else {
      PointKeyOk(b.prefix, b.id, if o.name == "database" then "database.dump.age" else "config.tar.age");
    }
  }

  lemma PointAndCasDiffer(prefix: string, id: string, sha: string, file: string, k: string)
    requires k in PointKeys(prefix, id)
    ensures k != CasFile(prefix, sha, file)
  {
    PointKeysInside(prefix, id, k);
    CasOutsidePoint(prefix, id, sha, file);
  }

  lemma PointKeysDiffer(prefix: string, id: string)
    ensures DatabaseKey(prefix, id) != ConfigKey(prefix, id)
  {
    assert |"database.dump.age"| != |"config.tar.age"|;
  }

  /** The object of a name in a list. */
  predicate Records(m: Manifest, name: string, key: string, p: Prints) {
    && (exists o | o in m.objects :: o.name == name)
    && forall o | o in m.objects && o.name == name ::
         o.backupId == m.backupId && o.key == key && Prints(o.plainSize, o.plainSha, o.cipherSize, o.cipherSha) == p
  }

  /**
   Looked up by name, the manifest gives for the database, for the config and for each file the key, and the sizes and
   digests that were measured for it.
   */
  lemma ManifestRecordsMeasurements(b: Backup, i: nat)
    requires WellFormed(b)
    ensures Records(ManifestOf(b), "database", DatabaseKey(b.prefix, b.id), b.database)
    ensures Records(ManifestOf(b), "config", ConfigKey(b.prefix, b.id), b.config)
    ensures i < |b.files| ==>
              Records(ManifestOf(b), "file:" + b.files[i].path, CasKey(b.prefix, b.files[i].sha, b.kid),
                      Prints(b.files[i].size, b.files[i].sha, b.ciphers[i].cipherSize, b.ciphers[i].cipherSha))
  {
    hide WellFormed, CasKey, DatabaseKey, ConfigKey;
    RecordedAt(b, 0);
    RecordedAt(b, 1);
    ObjectSizes(b);
    ObjectAt(b, 0);
    ObjectAt(b, 1);
    if i < |b.files| {
      RecordedAt(b, i + 2);
      ObjectAt(b, i + 2);
    }
  }

  lemma ObjectSizes(b: Backup)
    requires WellFormed(b)
    ensures |b.ciphers| == |b.files|
  {
  }

  /** Names are distinct, so an object is found by its name. */
  lemma RecordedAt(b: Backup, k: nat)
    requires WellFormed(b) && k < |b.files| + 2
    ensures |Objects(b)| == |b.files| + 2
    ensures var o := Objects(b)[k];
            Records(ManifestOf(b), o.name, o.key, Prints(o.plainSize, o.plainSha, o.cipherSize, o.cipherSha))
  {
    var objects := Objects(b);
    ObjectAt(b, k);
    assert objects[k] in objects;
    forall o | o in objects && o.name == objects[k].name ensures o == objects[k] {
      var j :| 0 <= j < |objects| && objects[j] == o;
      if j < k {
        ObjectsCollideIff(b, j, k);
      } else if k < j {
        ObjectsCollideIff(b, k, j);
      }
    }
    ObjectAt(b, k);
    hide Objects, WellFormed;
    assert objects[k].backupId == b.id;
  }

  /** An accepted manifest names the database, the config and each of its files exactly once. */
  lemma ValidManifestNamesAll(m: Manifest, name: string)
    requires ManifestValid(m)
    requires name == "database" || name == "config" || exists f | f in m.files :: name == "file:" + f.path
    ensures exists i | 0 <= i < |m.objects| ::
              m.objects[i].name == name && forall j | 0 <= j < |m.objects| && m.objects[j].name == name :: j == i
  {
    hide ValidObject, ValidFile, IsBackupId, IsBlank;
    var o :| o in m.objects && o.name == name;
    var i :| 0 <= i < |m.objects| && m.objects[i] == o;
    assert forall j | 0 <= j < |m.objects| && j != i :: m.objects[j].name != m.objects[i].name;
  }

  /** A key or a path that is absolute or climbs out of its directory is refused, and so is a digest of another form. */
  lemma EscapingNamesAreRefused(m: Manifest, a: string, b: string)
    requires exists o | o in m.objects ::
               || o.key == "/" + a || o.key == "../" + a || o.key == a + "/../" + b || o.key == a + "/.." || o.key == ""
               || o.plainSize < 0 || o.cipherSize < 0 || |o.plainSha| != 64 || |o.cipherSha| != 64
               || o.backupId != m.backupId
    ensures !ManifestValid(m)
  {
    SplitPlain("..");
    SplitJoin("..", a);
    assert ".." + "/" + a == "../" + a;
    SplitJoin(a, "../" + b);
    SplitJoin("..", b);
    assert a + "/" + ("../" + b) == a + "/../" + b && ".." + "/" + b == "../" + b;
    SplitJoin(a, "..");
    assert a + "/" + ".." == a + "/..";
    assert Split("..") == [".."] && ".." in Split("..");
    assert ".." in Split("..") + Split(a) && ".." in Split(a) + (Split("..") + Split(b)) && ".." in Split(a) + Split("..");
    var o :| o in m.objects
      && (|| o.key == "/" + a || o.key == "../" + a || o.key == a + "/../" + b || o.key == a + "/.." || o.key == ""
          || o.plainSize < 0 || o.cipherSize < 0 || |o.plainSha| != 64 || |o.cipherSha| != 64
          || o.backupId != m.backupId);
    hide Split, IsHexDigit;
    assert !ValidObject(m, o);
  }

  /** Readings taken in the order of the run are stored in that order, and the marker repeats the manifest's freeze. */
  lemma TimesKeepTheirOrder(b: Backup)
    requires |b.files| == |b.ciphers| && b.started < b.frozen < b.completed < b.verified
    ensures var manifest, marker := ManifestOf(b), MarkerOf(b);
            && manifest.started < manifest.frozen < manifest.completed < marker.verified
            && marker.frozen == manifest.frozen
            && {manifest.started, manifest.frozen, manifest.completed, marker.verified}
               == {b.started, b.frozen, b.completed, b.verified}
            && marker.backupId == manifest.backupId && marker.kid == manifest.kid
            && marker.manifestSize == b.manifest.cipherSize && marker.manifestSha == b.manifest.cipherSha
  {
  }

  /** Two objects share a name never, and a key exactly when they are files of the same content. */
  lemma ObjectsCollideIff(b: Backup, i: nat, j: nat)
    requires WellFormed(b) && i < j < |b.files| + 2
    ensures |Objects(b)| == |b.files| + 2
    ensures Objects(b)[i].name != Objects(b)[j].name
    ensures Objects(b)[i].key == Objects(b)[j].key <==> i >= 2 && b.files[i - 2].sha == b.files[j - 2].sha
  {
    ObjectAt(b, i);
    ObjectAt(b, j);
    if i >= 2 {
      FileObjectFacts(b, i - 2);
      FileObjectFacts(b, j - 2);
      assert b.files[i - 2] in b.files && b.files[j - 2] in b.files;
      if b.files[i - 2].sha != b.files[j - 2].sha && Objects(b)[i].key == Objects(b)[j].key {
        CasKeyInjective(b.prefix, b.files[i - 2].sha, b.files[j - 2].sha, b.kid);
      }
    } else if j >= 2 {
      FileObjectFacts(b, j - 2);
      PointAndCasDiffer(b.prefix, b.id, b.files[j - 2].sha, b.kid + ".age", Objects(b)[i].key);
    } else {
      PointKeysDiffer(b.prefix, b.id);
    }
  }

  /**
   The manifest a backup writes is accepted exactly when no two files have the same content, the three clock readings
   differ and the key id is not blank. Equal files share a key, which the check rejects.
   */
  lemma ManifestAcceptedIff(b: Backup)
    requires WellFormed(b)
    ensures ManifestValid(ManifestOf(b)) <==> DistinctDigests(b) && DistinctTimes(b) && !IsBlank(b.kid)
  {
    hide IsBlank, ValidObject, NoParent, IsSha, IsBuilderKeyId, IsBackupId, CasKey;
    var m, objects := ManifestOf(b), Objects(b);
    forall o | o in objects ensures ValidObject(m, o) {
      ObjectsAreValid(b, o);
    }
    ObjectAt(b, 0);
    ObjectAt(b, 1);
    assert objects[0] in objects && objects[1] in objects;
    forall f | f in b.files ensures exists o | o in objects :: o.name == "file:" + f.path {
      var i :| 0 <= i < |b.files| && b.files[i] == f;
      ObjectAt(b, i + 2);
      assert objects[i + 2] in objects;
    }
    forall i, j | 0 <= i < j < |objects|
      ensures objects[i].name != objects[j].name
      ensures objects[i].key == objects[j].key <==> i >= 2 && b.files[i - 2].sha == b.files[j - 2].sha
    {
      ObjectsCollideIff(b, i, j);
    }
    if !DistinctDigests(b) {
      var i, j :| 0 <= i < j < |b.files| && b.files[i].sha == b.files[j].sha;
      ObjectsCollideIff(b, i + 2, j + 2);
      assert objects[i + 2].key == objects[j + 2].key;
    }
  }

  lemma ExpectedKeys(b: Backup, o: Object)
    requires |b.files| == |b.ciphers| && o in Objects(b)
    ensures ExpectedKey(ManifestOf(b), b.prefix, o) == Some(o.key)
    ensures o.name == "database" || o.name == "config" ==> MetaKeyOf(ManifestOf(b), b.prefix, o) == {}
    ensures !(o.name == "database" || o.name == "config") ==>
              MetaKeyOf(ManifestOf(b), b.prefix, o) == {RemoveSuffix(o.key, ".age") + ".json"}
              && StartsWith(o.name, "file:")
  {
    ObjectCases(b, o);
    if i :| 0 <= i < |b.files| && o == FileObject(b, i) {
      FileObjectFacts(b, i);
    }
  }

  lemma KeyIdIsNotBlank(s: string)
    requires IsKeyId(s)
    ensures !IsBlank(s)
  {
    assert forall ch | ch in s :: !IsSpace(ch);
    StripNoSpace(s);
  }

  /**
   The retention record accepts a backup's manifest exactly when the manifest check does and
   the key id is well formed, and then its keys are the completion keys.
   */
  lemma RecordAgreesIff(b: Backup)
    requires WellFormed(b)
    ensures RecordKeys(ManifestOf(b), b.prefix, b.id).Some?
            <==> DistinctDigests(b) && DistinctTimes(b) && IsKeyId(b.kid)
    ensures RecordKeys(ManifestOf(b), b.prefix, b.id).Some? ==>
              RecordKeys(ManifestOf(b), b.prefix, b.id).value == CompletionKeys(b) == PointAndContentKeys(b)
  {
    if IsKeyId(b.kid) {
      KeyIdIsNotBlank(b.kid);
    }
    ManifestAcceptedIff(b);
    hide ManifestValid, IsBlank, IsKeyId, DistinctDigests, DistinctTimes, IsSha, IsBuilderKeyId, IsBackupId, CasKey;
    var m, objects := ManifestOf(b), Objects(b);
    CompletionKeysMean(b);
    forall o | o in objects ensures ExpectedKey(m, b.prefix, o) == Some(o.key) {
      ExpectedKeys(b, o);
    }
    if RecordKeys(m, b.prefix, b.id).Some? {
      var keys := RecordKeys(m, b.prefix, b.id).value;
      forall k ensures k in keys <==> k in CompletionKeys(b) {
        RecordKeyIff(b, k);
      }
    }
  }

  lemma RecordKeyIff(b: Backup, k: string)
    requires |b.files| == |b.ciphers| && RecordKeys(ManifestOf(b), b.prefix, b.id).Some?
    ensures k in RecordKeys(ManifestOf(b), b.prefix, b.id).value <==> k in CompletionKeys(b)
  {
    hide ManifestValid, NoParent, IsKeyId, RemoveSuffix;
    var m, objects := ManifestOf(b), Objects(b);
    forall o | o in objects
      ensures MetaKeyOf(m, b.prefix, o)
              == if StartsWith(o.name, "file:") then {RemoveSuffix(o.key, ".age") + ".json"} else {}
    {
      ExpectedKeys(b, o);
      PrefixAt(o.name, "file:", 0);
      assert "database"[0] == 'd' && "config"[0] == 'c' && "file:"[0] == 'f';
    }
    ObjectCases(b, DataObject(b, "database", DatabaseKey(b.prefix, b.id), b.database));
    ObjectCases(b, DataObject(b, "config", ConfigKey(b.prefix, b.id), b.config));
  }

  /** The marker as it is stored: its keys are a list. */
  datatype StoredMarker = StoredMarker(marker: Marker, listing: seq<string>)

  /** A way to list every set of keys without repetition, as sorting is. */
  ghost predicate Lists(sorted: set<string> -> seq<string>) {
    forall keys :: Members(sorted(keys)) == keys && Distinct(sorted(keys))
  }

  function StoredMarkerOf(b: Backup, sorted: set<string> -> seq<string>): StoredMarker
    requires |b.files| == |b.ciphers|
  {
    StoredMarker(MarkerOf(b), sorted(CompletionKeys(b)))
  }

  /** The check of the stored list: not empty, and the sorted form of its own members. */
  predicate StoredMarkerValid(s: StoredMarker, id: string, prefix: string, sorted: set<string> -> seq<string>) {
    && s.listing != [] && s.listing == sorted(Members(s.listing)) && s.marker.keys == Members(s.listing)
    && MarkerValid(s.marker, id, prefix)
  }

  /**
   The completion marker is accepted exactly when the key id is well formed and verification followed the freeze, and
   then its list names every key once.
   */
  lemma MarkerAcceptedIff(b: Backup, sorted: set<string> -> seq<string>)
    requires WellFormed(b) && Lists(sorted)
    ensures StoredMarkerValid(StoredMarkerOf(b, sorted), b.id, b.prefix, sorted)
            <==> IsKeyId(b.kid) && b.verified > b.frozen
    ensures Distinct(StoredMarkerOf(b, sorted).listing)
    ensures Members(StoredMarkerOf(b, sorted).listing) == PointAndContentKeys(b)
  {
    MarkerKeysAcceptedIff(b);
    CompletionKeysMean(b);
    hide MarkerValid, IsKeyId;
    var keys := CompletionKeys(b);
    assert ManifestKey(b.prefix, b.id) in keys;
    assert Members(sorted(keys)) == keys;
  }

  lemma MarkerKeysAcceptedIff(b: Backup)
    requires WellFormed(b)
    ensures MarkerValid(MarkerOf(b), b.id, b.prefix) <==> IsKeyId(b.kid) && b.verified > b.frozen
  {
    CompletionKeysMean(b);
    var m, root := MarkerOf(b), PointRoot(b.prefix, b.id);
    assert ManifestKey(b.prefix, b.id) in m.keys;
    forall k | k in m.keys
      ensures StartsWith(k, root + "/") <==> k in PointKeys(b.prefix, b.id)
      ensures k !in PointKeys(b.prefix, b.id) ==>
                CasMatch(b.prefix, b.kid, k).Some? && PairComplete(m, b.prefix, CasMatch(b.prefix, b.kid, k))
    {
      MarkerKey(b, k);
    }
    assert PointKeys(b.prefix, b.id) <= m.keys;
    assert (set k | k in m.keys && StartsWith(k, root + "/")) == PointKeys(b.prefix, b.id);
  }

  lemma MarkerKey(b: Backup, k: string)
    requires WellFormed(b) && k in CompletionKeys(b) && CompletionKeys(b) == PointAndContentKeys(b)
    ensures StartsWith(k, PointRoot(b.prefix, b.id) + "/") <==> k in PointKeys(b.prefix, b.id)
    ensures k !in PointKeys(b.prefix, b.id) ==>
              && CasMatch(b.prefix, b.kid, k).Some?
              && PairComplete(MarkerOf(b), b.prefix, CasMatch(b.prefix, b.kid, k))
  {
    var m := MarkerOf(b);
    if k in PointKeys(b.prefix, b.id) {
      PointKeysInside(b.prefix, b.id, k);
    } else {
      var f :| f in b.files && (k == CasKey(b.prefix, f.sha, b.kid) || k == CasMetaKey(b.prefix, f.sha, b.kid));
      CasMatches(b.prefix, f.sha, b.kid);
      CasOutsidePoint(b.prefix, b.id, f.sha, b.kid + ".age");
      CasOutsidePoint(b.prefix, b.id, f.sha, b.kid + ".json");
      assert CasKey(b.prefix, f.sha, b.kid) in m.keys && CasMetaKey(b.prefix, f.sha, b.kid) in m.keys;
    }
  }

  // ---------------------------------------------------------------------------
  // The validators' loops
  // ---------------------------------------------------------------------------

  /** Walk the objects once, remembering names and keys; any repeat or bad field refuses. */
  method CheckObjects(m: Manifest) returns (names: Option<set<string>>)
    ensures names.Some? <==>
            && (forall o | o in m.objects :: ValidObject(m, o))
            && (forall i, j | 0 <= i < j < |m.objects| ::
                  m.objects[i].name != m.objects[j].name && m.objects[i].key != m.objects[j].key)
    ensures names.Some? ==> names.value == set o | o in m.objects :: o.name
  {
    hide ValidObject;
    var seenNames: set<string>, seenKeys: set<string> := {}, {};
    for i := 0 to |m.objects|
      invariant seenNames == set j | 0 <= j < i :: m.objects[j].name
      invariant seenKeys == set j | 0 <= j < i :: m.objects[j].key
      invariant forall j | 0 <= j < i :: ValidObject(m, m.objects[j])
      invariant forall j, k | 0 <= j < k < i ::
                  m.objects[j].name != m.objects[k].name && m.objects[j].key != m.objects[k].key
    {
      var o := m.objects[i];
      if o.name in seenNames || o.key in seenKeys || !ValidObject(m, o) {
        assert o in m.objects;
        return None;
      }
      seenNames, seenKeys := seenNames + {o.name}, seenKeys + {o.key};
    }
    assert forall o | o in m.objects :: exists i | 0 <= i < |m.objects| :: m.objects[i] == o;
    return Some(seenNames);
  }

  lemma NoObjectKeys(m: Manifest, prefix: string)
    ensures ObjectKeys(m, prefix, []) == {}
  {
  }

  lemma OneMoreObject(m: Manifest, prefix: string, objects: seq<Object>, o: Object)
    ensures ObjectKeys(m, prefix, objects + [o]) == ObjectKeys(m, prefix, objects) + {o.key} + MetaKeyOf(m, prefix, o)
  {
    hide MetaKeyOf;
    assert forall x | x in objects + [o] :: x in objects || x == o;
    assert o in objects + [o];
  }

  /** Collect keys object by object, refusing any key that is not the expected one. */
  method CollectKeys(m: Manifest, prefix: string) returns (keys: Option<set<string>>)
    ensures keys.Some? <==> forall o | o in m.objects :: ExpectedKey(m, prefix, o) == Some(o.key)
    ensures keys.Some? ==> keys.value == ObjectKeys(m, prefix, m.objects)
  {
    NoObjectKeys(m, prefix);
    hide ExpectedKey, MetaKeyOf, ObjectKeys;
    var result: set<string> := {};
    for i := 0 to |m.objects|
      invariant result == ObjectKeys(m, prefix, m.objects[..i])
      invariant forall j | 0 <= j < i :: ExpectedKey(m, prefix, m.objects[j]) == Some(m.objects[j].key)
    {
      var o := m.objects[i];
      if ExpectedKey(m, prefix, o) != Some(o.key) {
        assert o in m.objects;
        return None;
      }
      assert m.objects[..i + 1] == m.objects[..i] + [o];
      OneMoreObject(m, prefix, m.objects[..i], o);
      result := result + {o.key} + MetaKeyOf(m, prefix, o);
    }
    assert m.objects[..|m.objects|] == m.objects;
    return Some(result);
  }

  /** The retention record's keys, after every check of the manifest. */
  method RetentionKeys(m: Manifest, prefix: string, id: string) returns (keys: Option<set<string>>)
    ensures keys == RecordKeys(m, prefix, id)
  {
    hide ManifestValid, NoParent, IsKeyId, ExpectedKey, ObjectKeys, PointKeys;
    if !ManifestValid(m) || m.backupId != id || prefix == "" || !NoParent(prefix) || !IsKeyId(m.kid) {
      return None;
    }
    var collected := CollectKeys(m, prefix);
    keys := if collected.Some? then Some(PointKeys(prefix, id) + collected.value) else None;
  }

  // ---------------------------------------------------------------------------
  // The conditions can be met, and a marker without pairs is refused
  // ---------------------------------------------------------------------------

  /** An accepted marker names both objects of a content or neither. */
  lemma AcceptedMarkersArePaired(m: Marker, id: string, prefix: string, sha: string)
    requires MarkerValid(m, id, prefix) && IsSha(sha)
    ensures CasKey(prefix, sha, m.kid) in m.keys <==> CasMetaKey(prefix, sha, m.kid) in m.keys
  {
    CasMatches(prefix, sha, m.kid);
    CasOutsidePoint(prefix, id, sha, m.kid + ".age");
    CasOutsidePoint(prefix, id, sha, m.kid + ".json");
    PointKeysAreInside(prefix, id);
    var age, meta := CasKey(prefix, sha, m.kid), CasMetaKey(prefix, sha, m.kid);
    if age in m.keys {
      assert PairComplete(m, prefix, CasMatch(prefix, m.kid, age));
      var k :| k in m.keys && CasMatch(prefix, m.kid, k) == Some((sha, JsonSuffix));
      MatchIsTheKey(prefix, m.kid, k, sha);
    }
    if meta in m.keys {
      assert PairComplete(m, prefix, CasMatch(prefix, m.kid, meta));
      var k :| k in m.keys && CasMatch(prefix, m.kid, k) == Some((sha, Age));
      MatchIsTheKey(prefix, m.kid, k, sha);
    }
  }

  lemma PointKeysAreInside(prefix: string, id: string)
    ensures forall k | k in PointKeys(prefix, id) :: StartsWith(k, PointRoot(prefix, id) + "/")
  {
  }

  lemma MatchIsTheKey(prefix: string, kid: string, k: string, sha: string)
    ensures CasMatch(prefix, kid, k) == Some((sha, Age)) ==> k == CasKey(prefix, sha, kid)
    ensures CasMatch(prefix, kid, k) == Some((sha, JsonSuffix)) ==> k == CasMetaKey(prefix, sha, kid)
  {
    var p := prefix + "/objects/sha256/";
    if CasMatch(prefix, kid, k).Some? && CasMatch(prefix, kid, k).value.0 == sha {
      assert k == p + sha + k[|p| + 64..];
      CasKeyShape(prefix, sha, kid + ".age");
      CasKeyShape(prefix, sha, kid + ".json");
      assert "/" + (kid + ".age") == "/" + kid + ".age" && "/" + (kid + ".json") == "/" + kid + ".json";
    }
  }

  /** A digest of 64 equal digits. */
  function Digits(ch: char): string {
    seq(64, i requires 0 <= i < 64 => ch)
  }

  const SAMPLE :=
    Backup("b", "p-1", "k", [FileItem("f", 1, Digits('a'))], [Prints(1, Digits('a'), 2, Digits('0'))],
           Prints(1, Digits('1'), 2, Digits('2')), Prints(1, Digits('3'), 2, Digits('4')),
           Prints(1, Digits('5'), 2, Digits('9')), 1, 2, 3, 4)

  lemma DigitsAreSha(ch: char)
    requires IsHexDigit(ch)
    ensures IsSha(Digits(ch))
  {
  }

  lemma SampleNames()
    ensures SAMPLE.prefix == "b" && NoParent("b") && !StartsWith("b", "/")
    ensures IsBackupId(SAMPLE.id) && IsBuilderKeyId(SAMPLE.kid) && IsKeyId(SAMPLE.kid)
    ensures NoParent("f") && !StartsWith("f", "/")
  {
    PlainNoParent("b");
    PlainNoParent("f");
    hide Split, NoParent;
  }

  lemma SampleIsWellFormed()
    ensures WellFormed(SAMPLE) && DistinctDigests(SAMPLE) && DistinctTimes(SAMPLE)
  {
    SampleNames();
    forall ch | ch in {'a', '0', '1', '2', '3', '4', '5', '9'} ensures IsSha(Digits(ch)) {
      DigitsAreSha(ch);
    }
    hide Digits, IsSha, NoParent, IsBackupId, IsBuilderKeyId, IsKeyId, StartsWith;
  }

  /** An ordinary backup of one file meets every condition, so all three computations accept it. */
  lemma OrdinaryBackupIsAccepted()
    ensures WellFormed(SAMPLE) && ManifestValid(ManifestOf(SAMPLE))
    ensures MarkerValid(MarkerOf(SAMPLE), SAMPLE.id, SAMPLE.prefix)
    ensures RecordKeys(ManifestOf(SAMPLE), SAMPLE.prefix, SAMPLE.id) == Some(CompletionKeys(SAMPLE))
  {
    SampleNames();
    SampleIsWellFormed();
    KeyIdIsNotBlank(SAMPLE.kid);
    hide WellFormed, ManifestValid, MarkerValid, RecordKeys, CompletionKeys, ManifestOf, MarkerOf, IsKeyId, IsBlank;
    hide DistinctDigests, NoParent, IsBackupId, IsBuilderKeyId, StartsWith, Digits;
    ManifestAcceptedIff(SAMPLE);
    MarkerKeysAcceptedIff(SAMPLE);
    RecordAgreesIff(SAMPLE);
  }
}
