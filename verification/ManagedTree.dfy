// The tree below the managed root, snapshots of it, and the facts that the
// config vault relies on. Paths are the components below the root; [] is the
// root itself.

module ManagedTree {
  import opened Text
  import opened Orders
  import opened Wrappers

  type Bytes = seq<bv8>
  type Digest = string
  type Path = seq<string>

  // Special is whatever is neither a directory nor a regular file: symbolic
  // links, sockets, devices.
  datatype Node = Dir | File(content: Bytes) | Special

  type Tree = map<Path, Node>

  datatype Artifact = Artifact(id: string, path: Path, sha: Digest, size: nat)
  datatype Manifest = Manifest(schema: int, id: string, component: string, created: int, artifacts: seq<Artifact>)

  const MAX_FILES: nat := 128
  const MAX_ARTIFACT_BYTES: nat := 0x20_0000
  const SCHEMA_VERSION := 1

  predicate PlainName(n: string) { n != "" && n != "." && n != ".." && '/' !in n }

  predicate Plain(p: Path) { forall i :: 0 <= i < |p| ==> PlainName(p[i]) }

  function Parent(p: Path): Path
    requires p != []
  {
    p[..|p| - 1]
  }

  function Base(p: Path): string
    requires p != []
  {
    p[|p| - 1]
  }

  predicate DirAt(t: Tree, p: Path) { p in t && t[p].Dir? }
  predicate FileAt(t: Tree, p: Path) { p in t && t[p].File? }

  lemma PuttingFile(t: Tree, p: Path, content: Bytes)
    requires WellFormed(t) && p != [] && Plain(p) && DirAt(t, Parent(p)) && !DirAt(t, p)
    ensures WellFormed(t[p := File(content)])
  {
  }

  function TempName(base: string, suffix: string): string { "." + base + ".tmp-" + suffix }

  lemma TempIsPlain(base: string, suffix: string)
    requires PlainName(base) && '/' !in suffix
    ensures PlainName(TempName(base, suffix))
  {
    var n := TempName(base, suffix);
    assert |n| >= 6 && '/' !in ".tmp-";
  }

  // What a file system guarantees: every entry has a plain name and lies in a
  // directory.
  ghost predicate WellFormed(t: Tree) {
    && (forall p :: p in t ==> Plain(p))
    && (forall p {:trigger Parent(p)} :: p in t && p != [] ==> DirAt(t, Parent(p)))
  }

  lemma {:induction false} AncestorsAreDirs(t: Tree, p: Path, i: nat)
    requires WellFormed(t) && DirAt(t, p) && i <= |p|
    ensures DirAt(t, p[..i])
    decreases |p|
  {
    if i < |p| {
      AncestorsAreDirs(t, Parent(p), i);
      assert Parent(p)[..i] == p[..i];
    } else {
      assert p[..i] == p;
    }
  }

  function Files(t: Tree): map<Path, Bytes> { map p | p in t && t[p].File? :: t[p].content }

  // The state that a restore compares: regular files by digest.
  ghost function Digests(t: Tree, sha: Bytes -> Digest): map<Path, Digest> {
    map p | p in Files(t) :: sha(Files(t)[p])
  }

  // t can come from t0 by writing and removing regular files and making
  // directories, without any directory or special entry lost and without any
  // entry of t0 replaced by another kind.
  ghost predicate KeepsShape(t0: Tree, t: Tree) {
    && (forall p :: DirAt(t0, p) ==> DirAt(t, p))
    && (forall p :: p in t0 && t0[p].Special? ==> p in t && t[p].Special?)
    && (forall p :: FileAt(t0, p) && p in t ==> t[p].File?)
    && ([] in t ==> [] in t0)
  }

  // ---- order of paths ------------------------------------------------------

  function PathString(p: Path): string { if p == [] then "" else PathString(p[..|p| - 1]) + "/" + p[|p| - 1] }

  lemma PathStringNext(p: Path, name: string)
    ensures PathString(p + [name]) == PathString(p) + "/" + name && PathString([]) == ""
  {
    assert (p + [name])[..|p|] == p;
  }

  predicate PathBefore(p: Path, q: Path) { Less(PathString(p), PathString(q)) }

  lemma PathOrder()
    ensures StrictWeak(PathBefore)
  {
    LessIsStrictTotal();
    forall x, y, z | !PathBefore(x, y) && !PathBefore(y, z) ensures !PathBefore(x, z) {
      var a, b, c := PathString(x), PathString(y), PathString(z);
      assert (a == b || Less(b, a)) && (b == c || Less(c, b));
      assert Less(a, c) && Less(c, b) ==> Less(a, b);
    }
  }

  // ---- names as the vault records them -------------------------------------

  // strings.TrimSpace on the full path only reaches the end of the last name.
  function Trimmed(p: Path): Path
    requires p != []
  {
    Parent(p) + [TrimRight(Base(p))]
  }

  predicate Tidy(p: Path) { p != [] && TrimRight(Base(p)) == Base(p) }

  lemma TrimmedIsTidy(p: Path)
    requires p != []
    ensures Tidy(Trimmed(p)) && Trimmed(Trimmed(p)) == Trimmed(p) && (Trimmed(p) == p <==> Tidy(p))
  {
    assert Parent(Trimmed(p)) == Parent(p);
    assert p == Parent(p) + [Base(p)];
    assert Base(Trimmed(p)) == TrimRight(Base(p));
    TrimRightEnds(Base(p));
  }

  // What validateAdminConfigVaultRestorePath accepts unchanged: absolute,
  // strictly inside the root, clean, and not altered by TrimSpace.
  predicate Restorable(p: Path) { p != [] && Plain(p) && Tidy(p) }

  function PathsOf(arts: seq<Artifact>): set<Path> { set a | a in arts :: a.path }

  function IdsOf(arts: seq<Artifact>): set<string> { set a | a in arts :: a.id }

  ghost predicate UniqueIds(arts: seq<Artifact>) {
    forall i, j :: 0 <= i < j < |arts| ==> arts[i].id != arts[j].id
  }

  ghost predicate UniquePaths(arts: seq<Artifact>) {
    forall i, j :: 0 <= i < j < |arts| ==> arts[i].path != arts[j].path
  }

  ghost predicate ValidManifest(m: Manifest) {
    && m.schema == SCHEMA_VERSION && m.component == "admin" && |m.artifacts| <= MAX_FILES
    && (forall a :: a in m.artifacts ==> a.id != "" && Restorable(a.path))
    && UniqueIds(m.artifacts) && UniquePaths(m.artifacts)
  }

  // The tree holds exactly the files of the snapshot, by digest.
  ghost predicate Holds(arts: seq<Artifact>, files: map<Path, Bytes>, sha: Bytes -> Digest) {
    && files.Keys == PathsOf(arts)
    && forall a :: a in arts ==> sha(files[a.path]) == a.sha
  }

  lemma HoldersAgree(arts: seq<Artifact>, t1: Tree, t2: Tree, sha: Bytes -> Digest)
    requires Holds(arts, Files(t1), sha) && Holds(arts, Files(t2), sha)
    ensures Digests(t1, sha) == Digests(t2, sha)
  {
    forall p | p in PathsOf(arts) ensures sha(Files(t1)[p]) == sha(Files(t2)[p]) {
      var a :| a in arts && a.path == p;
    }
  }

  // ---- what a capture records ----------------------------------------------

  predicate Capturable(t: Tree, p: Path) { p != [] && PlainName(TrimRight(Base(p))) && FileAt(t, Trimmed(p)) }

  // An artifact spec is a path with the id derived from it.
  function RecordOf(t: Tree, p: Path, id: string, sha: Bytes -> Digest): Artifact
    requires Capturable(t, p)
  {
    var q := Trimmed(p);
    Artifact(id, q, sha(t[q].content), |t[q].content|)
  }

  ghost predicate CapturedFrom(arts: seq<Artifact>, paths: seq<Path>, artifactId: Path -> string, t: Tree, sha: Bytes -> Digest) {
    && |arts| == |paths| && UniqueIds(arts)
    && (forall p, q :: p in paths && q in paths && artifactId(p) == artifactId(q) ==> p == q)
    && (forall p :: p in paths ==> Capturable(t, p) && RecordOf(t, p, artifactId(p), sha) in arts)
    && (forall a {:trigger FromPath(a, paths, artifactId, t, sha)} :: a in arts ==> FromPath(a, paths, artifactId, t, sha))
  }

  ghost predicate FromPath(a: Artifact, paths: seq<Path>, artifactId: Path -> string, t: Tree, sha: Bytes -> Digest) {
    exists p :: p in paths && Capturable(t, p) && a == RecordOf(t, p, artifactId(p), sha)
  }

  // The first i paths have been recorded, under ids not used before.
  ghost predicate Recorded(records: seq<Artifact>, paths: seq<Path>, i: nat, artifactId: Path -> string, t: Tree, sha: Bytes -> Digest) {
    && |records| == i <= |paths|
    && (forall k :: 0 <= k < i ==> Capturable(t, paths[k]) && records[k] == RecordOf(t, paths[k], artifactId(paths[k]), sha))
    && UniqueIds(records)
  }

  lemma RecordNext(records: seq<Artifact>, paths: seq<Path>, i: nat, artifactId: Path -> string, t: Tree, sha: Bytes -> Digest)
    requires Recorded(records, paths, i, artifactId, t, sha) && i < |paths| && Capturable(t, paths[i])
    requires artifactId(paths[i]) !in IdsOf(records)
    ensures var next := records + [RecordOf(t, paths[i], artifactId(paths[i]), sha)];
      Recorded(next, paths, i + 1, artifactId, t, sha) && IdsOf(next) == IdsOf(records) + {artifactId(paths[i])}
  {
    var id := artifactId(paths[i]);
    forall k | 0 <= k < i ensures records[k].id != id { assert records[k] in records; }
  }

  lemma RecordsAreCapture(records: seq<Artifact>, paths: seq<Path>, artifactId: Path -> string, t: Tree,
                          sha: Bytes -> Digest, before: (Artifact, Artifact) -> bool)
    requires Recorded(records, paths, |paths|, artifactId, t, sha)
    ensures CapturedFrom(Sort(records, before), paths, artifactId, t, sha)
  {
    SortKeeps(records, before);
    SortUnique(records, before);
    RecordsCover(records, paths, artifactId, t, sha);
  }

  lemma RecordsCover(arts: seq<Artifact>, paths: seq<Path>, artifactId: Path -> string, t: Tree, sha: Bytes -> Digest)
    requires Recorded(arts, paths, |paths|, artifactId, t, sha)
    ensures CapturedFrom(arts, paths, artifactId, t, sha)
  {
    var records := arts;
    forall p | p in paths ensures Capturable(t, p) && RecordOf(t, p, artifactId(p), sha) in arts {
      var k :| 0 <= k < |paths| && paths[k] == p;
      assert records[k] in records;
    }
    forall a | a in arts ensures FromPath(a, paths, artifactId, t, sha) {
      var k :| 0 <= k < |records| && records[k] == a;
      assert paths[k] in paths;
    }
    forall p, q | p in paths && q in paths && artifactId(p) == artifactId(q) ensures p == q {
      var k :| 0 <= k < |paths| && paths[k] == p;
      var l :| 0 <= l < |paths| && paths[l] == q;
      assert records[k].id == records[l].id;
    }
  }

  // A discovery lists every regular file once, in path order.
  ghost predicate Discovered(paths: seq<Path>, t: Tree) {
    && Distinct(paths) && Sorted(paths, PathBefore)
    && (forall p :: p in paths <==> p in Files(t))
  }

  // Discovery reads a tree whose root is missing or a directory and which has
  // at most 128 regular files.
  ghost predicate Discoverable(t: Tree) { ([] in t ==> t[[]].Dir?) && |Files(t).Keys| <= MAX_FILES }

  lemma CapturesAreFiles(arts: seq<Artifact>, paths: seq<Path>, artifactId: Path -> string, t: Tree, sha: Bytes -> Digest)
    requires WellFormed(t) && CapturedFrom(arts, paths, artifactId, t, sha)
    ensures forall a :: a in arts ==> Restorable(a.path) && FileAt(t, a.path) && sha(t[a.path].content) == a.sha
  {
    forall a | a in arts ensures Restorable(a.path) && FileAt(t, a.path) && sha(t[a.path].content) == a.sha {
      assert FromPath(a, paths, artifactId, t, sha);
      var p :| p in paths && Capturable(t, p) && a == RecordOf(t, p, artifactId(p), sha);
      TrimmedIsTidy(p);
    }
  }

  lemma TidyCapturePaths(arts: seq<Artifact>, paths: seq<Path>, artifactId: Path -> string, t: Tree, sha: Bytes -> Digest)
    requires WellFormed(t) && Discovered(paths, t) && CapturedFrom(arts, paths, artifactId, t, sha)
    requires forall p :: p in Files(t) ==> Tidy(p)
    ensures PathsOf(arts) == Files(t).Keys
  {
    CapturesAreFiles(arts, paths, artifactId, t, sha);
    forall p | p in Files(t) ensures p in PathsOf(arts) {
      assert p in paths;
      TrimmedIsTidy(p);
      var a := RecordOf(t, p, artifactId(p), sha);
      assert a in arts && a.path == p;
    }
  }

  lemma FileCount(paths: seq<Path>, t: Tree)
    requires Discovered(paths, t)
    ensures |Files(t).Keys| == |paths|
  {
    DistinctSetSize(paths);
    assert Files(t).Keys == set p | p in paths;
  }

  lemma TidyCaptureHolds(arts: seq<Artifact>, paths: seq<Path>, artifactId: Path -> string, t: Tree, sha: Bytes -> Digest)
    requires WellFormed(t) && Discovered(paths, t) && CapturedFrom(arts, paths, artifactId, t, sha)
    requires forall p :: p in Files(t) ==> Tidy(p)
    ensures Holds(arts, Files(t), sha) && UniquePaths(arts)
  {
    CapturesAreFiles(arts, paths, artifactId, t, sha);
    TidyCapturePaths(arts, paths, artifactId, t, sha);
    FileCount(paths, t);
    PathCount(arts);
  }

  // An untidy name shares its recorded path with the tidy one.
  lemma UntidyClashes(arts: seq<Artifact>, paths: seq<Path>, artifactId: Path -> string, t: Tree, sha: Bytes -> Digest, p: Path)
    requires WellFormed(t) && Discovered(paths, t) && CapturedFrom(arts, paths, artifactId, t, sha)
    requires p in Files(t) && !Tidy(p)
    ensures !UniquePaths(arts)
  {
    assert p in paths && Capturable(t, p);
    TrimmedIsTidy(p);
    var q := Trimmed(p);
    assert q in Files(t) && q in paths && Trimmed(q) == q && p != q;
    var a, b := RecordOf(t, p, artifactId(p), sha), RecordOf(t, q, artifactId(q), sha);
    assert a in arts && b in arts && a.path == b.path && a.id != b.id;
    var i :| 0 <= i < |arts| && arts[i] == a;
    var j :| 0 <= j < |arts| && arts[j] == b;
    assert i < j || j < i;
  }

  // A name ending in white space is recorded without it, so it shares a path
  // with another file: a captured manifest can be restored exactly when every
  // discovered name is tidy, and then it is the captured state.
  lemma CaptureIsRestorableIffTidy(arts: seq<Artifact>, paths: seq<Path>, artifactId: Path -> string, t: Tree, sha: Bytes -> Digest)
    requires WellFormed(t) && Discovered(paths, t) && CapturedFrom(arts, paths, artifactId, t, sha)
    ensures UniquePaths(arts) <==> forall p :: p in Files(t) ==> Tidy(p)
    ensures UniquePaths(arts) ==> Holds(arts, Files(t), sha)
  {
    if p :| p in Files(t) && !Tidy(p) {
      UntidyClashes(arts, paths, artifactId, t, sha, p);
    } else {
      TidyCaptureHolds(arts, paths, artifactId, t, sha);
    }
  }

  const TIDY: Path := ["a"]
  const UNTIDY: Path := ["a "]

  // The smallest tree whose capture cannot be restored.
  function TwoNames(x: Bytes, y: Bytes): Tree { map[[] := Dir, TIDY := File(x), UNTIDY := File(y)] }

  lemma TrimmedUntidy()
    ensures Tidy(TIDY) && !Tidy(UNTIDY) && Trimmed(UNTIDY) == TIDY && TIDY != UNTIDY
  {
    assert "a "[..1] == "a" && IsSpace(' ') && !IsSpace('a');
    assert TrimRight("a") == "a" && TrimRight("a ") == "a";
    assert TIDY[0] != UNTIDY[0] by { assert |TIDY[0]| != |UNTIDY[0]|; }
    assert Trimmed(UNTIDY) == [] + ["a"];
  }

  lemma TwoNamesFit(x: Bytes, y: Bytes)
    ensures var t := TwoNames(x, y); WellFormed(t) && Discoverable(t) && Capturable(t, TIDY) && Capturable(t, UNTIDY)
    ensures Trimmed(TIDY) == TIDY == Trimmed(UNTIDY)
  {
    TrimmedUntidy();
    TrimmedIsTidy(TIDY);
    assert Parent(TIDY) == [] && Parent(UNTIDY) == [];
    assert Files(TwoNames(x, y)).Keys == {TIDY, UNTIDY};
  }

  lemma SamePathTwice(a: Artifact, b: Artifact, schema: int, id: string, component: string, created: int)
    requires a.path == b.path
    ensures !ValidManifest(Manifest(schema, id, component, created, [a, b]))
  {
    var arts := [a, b];
    assert arts[0].path == arts[1].path;
  }

  // Two files whose names differ in trailing white space only are discovered
  // and captured, and their snapshot cannot be restored.
  lemma UntidyWitness(x: Bytes, y: Bytes, artifactId: Path -> string, sha: Bytes -> Digest) returns (arts: seq<Artifact>)
    requires artifactId(TIDY) != artifactId(UNTIDY)
    ensures WellFormed(TwoNames(x, y)) && Discoverable(TwoNames(x, y))
    ensures CapturedFrom(arts, [TIDY, UNTIDY], artifactId, TwoNames(x, y), sha)
    ensures forall id, schema, component, created :: !ValidManifest(Manifest(schema, id, component, created, arts))
  {
    var t := TwoNames(x, y);
    TwoNamesFit(x, y);
    var a, b := RecordOf(t, TIDY, artifactId(TIDY), sha), RecordOf(t, UNTIDY, artifactId(UNTIDY), sha);
    arts := [a, b];
    assert a in arts && b in arts;
    forall id, schema, component, created ensures !ValidManifest(Manifest(schema, id, component, created, arts)) {
      SamePathTwice(a, b, schema, id, component, created);
    }
  }

  // Fewer paths than artifacts once two share one.
  lemma {:induction false} PathCount(arts: seq<Artifact>)
    ensures |PathsOf(arts)| <= |arts|
    ensures |PathsOf(arts)| == |arts| ==> UniquePaths(arts)
  {
    if arts != [] {
      var rest := PathsOf(arts[1..]);
      PathCount(arts[1..]);
      assert PathsOf(arts) == {arts[0].path} + rest;
      if |PathsOf(arts)| == |arts| {
        assert arts[0].path !in rest;
        forall i, j | 0 <= i < j < |arts| ensures arts[i].path != arts[j].path {
          assert arts[j] == arts[1..][j - 1] && arts[j].path in rest;
          assert i > 0 ==> arts[i] == arts[1..][i - 1];
        }
      }
    }
  }

  // ---- stored objects ------------------------------------------------------

  predicate IdChar(c: char, first: bool) {
    'A' <= c <= 'Z' || 'a' <= c <= 'z' || '0' <= c <= '9' || (!first && c in {'.', '_', '-'})
  }

  // ^[A-Za-z0-9][A-Za-z0-9._-]{0,63}$
  predicate IdPattern(s: string) {
    1 <= |s| <= 64 && forall i :: 0 <= i < |s| ==> IdChar(s[i], i == 0)
  }

  // What a capture leaves behind: an object with the digest of the artifact.
  predicate Stored(a: Artifact, objects: map<Digest, Bytes>, sha: Bytes -> Digest) {
    && IdPattern(a.id) && a.size <= MAX_ARTIFACT_BYTES
    && a.sha in objects && sha(objects[a.sha]) == a.sha
  }

  // What ReadArtifact asks for: the object has the recorded size as well.
  predicate Intact(a: Artifact, objects: map<Digest, Bytes>, sha: Bytes -> Digest) {
    Stored(a, objects, sha) && |objects[a.sha]| == a.size
  }

  // The characters of an id, written out.
  const UPPER := "ABCDEFGHIJKLMNOPQRSTUVWXYZ"
  const LOWER := "abcdefghijklmnopqrstuvwxyz"
  const DIGITS := "0123456789"
  const PUNCTUATION := "._-"

  predicate Alphanumeric(c: char) { c in UPPER || c in LOWER || c in DIGITS }

  // What the store asks of a path and an id that it is to record: the id is well
  // formed, the path without white space at its end is a file of at most 2 MiB,
  // and what is stored under the digest of the file has that digest.
  ghost predicate CanRecord(p: Path, id: string, t: Tree, objects: map<Digest, Bytes>, sha: Bytes -> Digest) {
    && 1 <= |id| <= 64 && Alphanumeric(id[0]) && (forall i :: 1 <= i < |id| ==> Alphanumeric(id[i]) || id[i] in PUNCTUATION)
    && p != [] && FileAt(t, Trimmed(p))
    && var content := t[Trimmed(p)].content;
       |content| <= 2_097_152 && (sha(content) in objects ==> sha(objects[sha(content)]) == sha(content))
  }

  lemma ListedAt(k: nat)
    ensures k < 26 ==> UPPER[k] == 'A' + k as char && LOWER[k] == 'a' + k as char
    ensures k < 10 ==> DIGITS[k] == '0' + k as char
  {}

  lemma UpperIsListed(c: char)
    ensures c in UPPER <==> 'A' <= c <= 'Z'
  {
    if 'A' <= c <= 'Z' { ListedAt(c as int - 'A' as int); }
    if c in UPPER {
      var k: nat :| k < |UPPER| && UPPER[k] == c;
      ListedAt(k);
    }
  }

  lemma LowerIsListed(c: char)
    ensures c in LOWER <==> 'a' <= c <= 'z'
  {
    if 'a' <= c <= 'z' { ListedAt(c as int - 'a' as int); }
    if c in LOWER {
      var k: nat :| k < |LOWER| && LOWER[k] == c;
      ListedAt(k);
    }
  }

  lemma DigitIsListed(c: char)
    ensures c in DIGITS <==> '0' <= c <= '9'
  {
    if '0' <= c <= '9' { ListedAt(c as int - '0' as int); }
    if c in DIGITS {
      var k: nat :| k < |DIGITS| && DIGITS[k] == c;
      ListedAt(k);
    }
  }

  lemma IdCharIsListed(c: char, first: bool)
    ensures IdChar(c, first) <==> Alphanumeric(c) || (!first && c in PUNCTUATION)
  {
    UpperIsListed(c);
    LowerIsListed(c);
    DigitIsListed(c);
  }

  lemma IdIsListed(id: string)
    ensures IdPattern(id) <==>
      1 <= |id| <= 64 && Alphanumeric(id[0]) && forall i :: 1 <= i < |id| ==> Alphanumeric(id[i]) || id[i] in PUNCTUATION
  {
    forall i | 0 <= i < |id| ensures IdChar(id[i], i == 0) <==> Alphanumeric(id[i]) || (i > 0 && id[i] in PUNCTUATION) {
      IdCharIsListed(id[i], i == 0);
    }
  }

  // All of them, under distinct ids.
  ghost predicate CanRecordAll(paths: seq<Path>, artifactId: Path -> string, t: Tree, objects: map<Digest, Bytes>, sha: Bytes -> Digest) {
    && (forall p :: p in paths ==> CanRecord(p, artifactId(p), t, objects, sha))
    && (forall i, j :: 0 <= i < j < |paths| ==> artifactId(paths[i]) != artifactId(paths[j]))
  }

  // After a capture an object is one that was there, or the content of a file it
  // was given.
  ghost predicate ObjectsFrom(o0: map<Digest, Bytes>, o: map<Digest, Bytes>, paths: seq<Path>, t: Tree, sha: Bytes -> Digest) {
    forall d :: d in o ==> if d in o0 then o[d] == o0[d] else TakenObject(d, o[d], paths, t, sha)
  }

  ghost predicate TakenObject(d: Digest, content: Bytes, paths: seq<Path>, t: Tree, sha: Bytes -> Digest) {
    sha(content) == d && exists p :: p in paths && p != [] && FileAt(t, Trimmed(p)) && t[Trimmed(p)].content == content
  }

  predicate Referenced(snapshots: map<string, Manifest>, d: Digest) {
    exists id :: id in snapshots && exists a :: a in snapshots[id].artifacts && a.sha == d
  }

  lemma SortUnique(s: seq<Artifact>, before: (Artifact, Artifact) -> bool)
    ensures UniqueIds(s) ==> UniqueIds(Sort(s, before))
    ensures UniqueIds(s) && UniquePaths(s) ==> UniquePaths(Sort(s, before))
  {
    SortKeeps(s, before);
    if UniqueIds(s) {
      assert Distinct(s);
      SortDistinct(s, before);
      var t := Sort(s, before);
      forall i, j | 0 <= i < j < |t|
        ensures t[i].id != t[j].id && (UniquePaths(s) ==> t[i].path != t[j].path)
      {
        assert t[i] in t && t[j] in t;
        var k :| 0 <= k < |s| && s[k] == t[i];
        var l :| 0 <= l < |s| && s[l] == t[j];
        assert k < l || l < k;
      }
    }
  }
}
