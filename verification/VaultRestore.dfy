// Rolling back an apply, and the restore transaction that drives both.

module VaultRestore {
  import opened ManagedTree
  import opened VaultHost
  import opened ConfigVault
  import opened VaultApply
  import opened Orders
  import opened Text
  import opened Wrappers
  import opened Transactions

  // ---- the safety snapshot -------------------------------------------------

  ghost predicate AllTidy(t: Tree) { forall p :: p in Files(t) ==> Tidy(p) }

  // A file whose digest is that of an object of another length. A capture does
  // not notice, a restore does.
  ghost predicate Clashes(t: Tree, objects: map<Digest, Bytes>, sha: Bytes -> Digest) {
    exists p :: p in Files(t) && sha(Files(t)[p]) in objects && |objects[sha(Files(t)[p])]| != |Files(t)[p]|
  }

  // An artifact taken from t0.
  ghost predicate TakenFrom(a: Artifact, t0: Tree, sha: Bytes -> Digest) {
    && Restorable(a.path) && FileAt(t0, a.path)
    && a.sha == sha(t0[a.path].content) && a.size == |t0[a.path].content|
  }

  // m is the stored capture of t0: restorable exactly when all names of t0 are
  // tidy, and then it is the state of t0.
  ghost predicate SafetySnapshot(m: Manifest, t0: Tree, snapshots: map<string, Manifest>, objects: map<Digest, Bytes>,
                                 sha: Bytes -> Digest) {
    && WellFormed(t0) && Discoverable(t0)
    && m.schema == SCHEMA_VERSION && m.component == "admin" && |m.artifacts| <= MAX_FILES
    && m.id in snapshots && snapshots[m.id] == m
    && UniqueIds(m.artifacts) && (UniquePaths(m.artifacts) <==> AllTidy(t0))
    && (AllTidy(t0) ==> Holds(m.artifacts, Files(t0), sha))
    && (forall a :: a in m.artifacts ==> TakenFrom(a, t0, sha) && Stored(a, objects, sha))
    && (forall p :: p in Files(t0) && Tidy(p) ==> p in PathsOf(m.artifacts))
  }

  lemma CaptureIsSafety(m: Manifest, paths: seq<Path>, artifactId: Path -> string, t: Tree, snapshots: map<string, Manifest>,
                        objects: map<Digest, Bytes>, sha: Bytes -> Digest)
    requires WellFormed(t) && Discovered(paths, t) && Discoverable(t)
    requires CapturedFrom(m.artifacts, paths, artifactId, t, sha)
    requires m.schema == SCHEMA_VERSION && m.component == "admin" && m.id in snapshots && snapshots[m.id] == m
    requires forall a :: a in m.artifacts ==> Stored(a, objects, sha)
    ensures SafetySnapshot(m, t, snapshots, objects, sha)
  {
    CaptureIsRestorableIffTidy(m.artifacts, paths, artifactId, t, sha);
    CapturesAreFiles(m.artifacts, paths, artifactId, t, sha);
    FileCount(paths, t);
    forall a | a in m.artifacts ensures TakenFrom(a, t, sha) {
      assert FromPath(a, paths, artifactId, t, sha);
      var p :| p in paths && Capturable(t, p) && a == RecordOf(t, p, artifactId(p), sha);
    }
    forall p | p in Files(t) && Tidy(p) ensures p in PathsOf(m.artifacts) {
      assert p in paths;
      TrimmedIsTidy(p);
      assert RecordOf(t, p, artifactId(p), sha).path == p;
    }
  }

  // Files of a well-formed tree stay writable in every tree that keeps its
  // shape, and none lies above another.
  lemma FilesArePlaceable(t0: Tree, t: Tree, arts: seq<Artifact>)
    requires WellFormed(t0) && KeepsShape(t0, t)
    requires forall a :: a in arts ==> Restorable(a.path) && FileAt(t0, a.path)
    ensures Placeable(t, arts)
  {
    forall a | a in arts ensures Clear(t, a.path) { FileIsClear(t0, t, a.path); }
    forall a, b | a in arts && b in arts ensures !(a.path < b.path) {
      if a.path < b.path { AboveIsDir(t0, b.path, a.path); }
    }
  }

  lemma AboveIsDir(t: Tree, p: Path, q: Path)
    requires WellFormed(t) && p in t && q < p
    ensures DirAt(t, q)
  {
    AncestorsAreDirs(t, Parent(p), |q|);
    assert Parent(p)[..|q|] == q;
  }

  lemma FileIsClear(t0: Tree, t: Tree, p: Path)
    requires WellFormed(t0) && KeepsShape(t0, t) && Restorable(p) && FileAt(t0, p)
    ensures Clear(t, p)
  {
    AboveIsDir(t0, p, []);
    forall q | q in t && q < p ensures DirAt(t, q) { AboveIsDir(t0, p, q); }
  }

  lemma IntactUnlessClash(m: Manifest, t0: Tree, snapshots: map<string, Manifest>, objects: map<Digest, Bytes>, sha: Bytes -> Digest)
    requires SafetySnapshot(m, t0, snapshots, objects, sha) && AllTidy(t0)
    ensures (forall a :: a in m.artifacts ==> Intact(a, objects, sha)) <==> !Clashes(t0, objects, sha)
    ensures PathsOf(m.artifacts) == Files(t0).Keys
  {
    if p :| p in Files(t0) && sha(Files(t0)[p]) in objects && |objects[sha(Files(t0)[p])]| != |Files(t0)[p]| {
      assert p in PathsOf(m.artifacts);
      var a :| a in m.artifacts && a.path == p;
      assert TakenFrom(a, t0, sha) && !Intact(a, objects, sha);
    } else {
      forall a | a in m.artifacts ensures Intact(a, objects, sha) {
        assert TakenFrom(a, t0, sha) && Stored(a, objects, sha);
        assert a.path in Files(t0);
      }
    }
  }

  // The old state can be brought back among the given paths.
  ghost predicate Returnable(t0: Tree, paths: set<Path>, objects: map<Digest, Bytes>, sha: Bytes -> Digest) {
    AllTidy(t0) && !Clashes(t0, objects, sha) && |Files(t0).Keys + paths| <= MAX_FILES
  }

  lemma TidyIsApplicable(m: Manifest, t0: Tree, t: Tree, snapshots: map<string, Manifest>,
                         objects: map<Digest, Bytes>, sha: Bytes -> Digest)
    requires SafetySnapshot(m, t0, snapshots, objects, sha) && KeepsShape(t0, t) && AllTidy(t0)
    ensures ValidManifest(m) && (Readable(m, snapshots, objects, sha) <==> !Clashes(t0, objects, sha))
    ensures Welcomes(t, m.artifacts) <==> |Files(t0).Keys + Files(t).Keys| <= MAX_FILES
  {
    ValidSafety(m, t0, snapshots, objects, sha);
    IntactUnlessClash(m, t0, snapshots, objects, sha);
    SafetyIsWelcome(m.artifacts, t0, t);
  }

  lemma SafetyIsWelcome(arts: seq<Artifact>, t0: Tree, t: Tree)
    requires WellFormed(t0) && Discoverable(t0) && KeepsShape(t0, t) && PathsOf(arts) == Files(t0).Keys
    requires forall a :: a in arts ==> Restorable(a.path) && FileAt(t0, a.path)
    ensures Welcomes(t, arts) <==> |Files(t0).Keys + Files(t).Keys| <= MAX_FILES
  {
    FilesArePlaceable(t0, t, arts);
    RootKept(t0, t);
    UnionCommutes(Files(t).Keys, Files(t0).Keys);
  }

  lemma UnionCommutes(a: set<Path>, b: set<Path>)
    ensures a + b == b + a
  {}

  // From any tree that keeps the shape of t0, the safety snapshot of t0 can be
  // applied exactly when the names of t0 are tidy, no object clashes and all
  // files together fit the discovery.
  lemma SafetyIsApplicable(m: Manifest, t0: Tree, t: Tree, snapshots: map<string, Manifest>,
                           objects: map<Digest, Bytes>, sha: Bytes -> Digest)
    requires SafetySnapshot(m, t0, snapshots, objects, sha) && KeepsShape(t0, t)
    ensures Applicable(t, m, snapshots, objects, sha) <==> Returnable(t0, Files(t).Keys, objects, sha)
  {
    if AllTidy(t0) { TidyIsApplicable(m, t0, t, snapshots, objects, sha); }
  }

  lemma RootKept(t0: Tree, t: Tree)
    requires Discoverable(t0) && KeepsShape(t0, t)
    ensures [] in t ==> t[[]].Dir?
  {
    assert [] in t0 ==> DirAt(t0, []);
  }

  lemma ValidSafety(m: Manifest, t0: Tree, snapshots: map<string, Manifest>, objects: map<Digest, Bytes>, sha: Bytes -> Digest)
    requires SafetySnapshot(m, t0, snapshots, objects, sha) && AllTidy(t0)
    ensures ValidManifest(m)
  {
    forall a | a in m.artifacts ensures a.id != "" && Restorable(a.path) {
      assert TakenFrom(a, t0, sha) && Stored(a, objects, sha);
    }
  }

  // ---- what the start says -------------------------------------------------

  // The store can record every file of the tree.
  ghost predicate CaptureFits(t: Tree, artifactId: Path -> string, objects: map<Digest, Bytes>, sha: Bytes -> Digest) {
    && (forall p :: p in Files(t) ==> CanRecord(p, artifactId(p), t, objects, sha))
    && (forall p, q :: p in Files(t) && q in Files(t) && artifactId(p) == artifactId(q) ==> p == q)
  }

  lemma FitsDiscovered(paths: seq<Path>, t: Tree, artifactId: Path -> string, objects: map<Digest, Bytes>, sha: Bytes -> Digest)
    requires Discovered(paths, t)
    ensures CanRecordAll(paths, artifactId, t, objects, sha) <==> CaptureFits(t, artifactId, objects, sha)
  {
    if CanRecordAll(paths, artifactId, t, objects, sha) {
      forall p, q | p in Files(t) && q in Files(t) && artifactId(p) == artifactId(q) ensures p == q {
        var i :| 0 <= i < |paths| && paths[i] == p;
        var j :| 0 <= j < |paths| && paths[j] == q;
        assert !(i < j) && !(j < i);
      }
    }
    if CaptureFits(t, artifactId, objects, sha) {
      forall i, j | 0 <= i < j < |paths| ensures artifactId(paths[i]) != artifactId(paths[j]) {
        assert paths[i] in paths && paths[j] in paths;
      }
    }
  }

  ghost predicate OfFile(d: Digest, content: Bytes, t: Tree, sha: Bytes -> Digest) {
    sha(content) == d && exists p :: p in Files(t) && Tidy(p) && Files(t)[p] == content
  }

  // The objects after the capture of t, from those before.
  ghost predicate AfterCapture(t: Tree, objects0: map<Digest, Bytes>, objects: map<Digest, Bytes>, snapshots: map<string, Manifest>,
                               sha: Bytes -> Digest) {
    && (forall d :: d in objects ==> if d in objects0 then objects[d] == objects0[d] else OfFile(d, objects[d], t, sha))
    && (forall d :: d in objects0 && Referenced(snapshots, d) ==> d in objects)
  }

  lemma CaptureAdds(paths: seq<Path>, t: Tree, objects0: map<Digest, Bytes>, objects: map<Digest, Bytes>,
                    snapshots: map<string, Manifest>, sha: Bytes -> Digest)
    requires ObjectsFrom(objects0, objects, paths, t, sha)
    requires forall d :: d in objects0 && Referenced(snapshots, d) ==> d in objects
    ensures AfterCapture(t, objects0, objects, snapshots, sha)
  {
    forall d | d in objects && d !in objects0 ensures OfFile(d, objects[d], t, sha) {
      assert TakenObject(d, objects[d], paths, t, sha);
      var p :| p in paths && p != [] && FileAt(t, Trimmed(p)) && t[Trimmed(p)].content == objects[d];
      TrimmedIsTidy(p);
      assert Trimmed(p) in Files(t);
    }
  }

  // Two contents of one digest, told from the tree and the objects at the start.
  ghost predicate StartClash(t: Tree, objects: map<Digest, Bytes>, sha: Bytes -> Digest) {
    Clashes(t, objects, sha) || Twins(t, sha)
  }

  ghost predicate Twins(t: Tree, sha: Bytes -> Digest) {
    exists p, q :: p in Files(t) && q in Files(t) && sha(Files(t)[p]) == sha(Files(t)[q]) && |Files(t)[p]| != |Files(t)[q]|
  }

  lemma FileIsStored(m: Manifest, t0: Tree, snapshots: map<string, Manifest>, objects: map<Digest, Bytes>, sha: Bytes -> Digest, p: Path)
    requires SafetySnapshot(m, t0, snapshots, objects, sha) && p in Files(t0) && Tidy(p)
    ensures sha(Files(t0)[p]) in objects
  {
    assert p in PathsOf(m.artifacts);
    var a :| a in m.artifacts && a.path == p;
    assert TakenFrom(a, t0, sha) && Stored(a, objects, sha);
  }

  lemma ClashFromStart(m: Manifest, t0: Tree, objects0: map<Digest, Bytes>, snapshots: map<string, Manifest>,
                       objects: map<Digest, Bytes>, sha: Bytes -> Digest)
    requires SafetySnapshot(m, t0, snapshots, objects, sha) && AllTidy(t0) && AfterCapture(t0, objects0, objects, snapshots, sha)
    ensures Clashes(t0, objects, sha) <==> StartClash(t0, objects0, sha)
  {
    if Clashes(t0, objects, sha) {
      var p :| p in Files(t0) && sha(Files(t0)[p]) in objects && |objects[sha(Files(t0)[p])]| != |Files(t0)[p]|;
      var d := sha(Files(t0)[p]);
      if d !in objects0 {
        assert OfFile(d, objects[d], t0, sha);
        var q :| q in Files(t0) && Files(t0)[q] == objects[d];
        assert sha(Files(t0)[p]) == sha(Files(t0)[q]) && |Files(t0)[p]| != |Files(t0)[q]|;
      }
    }
    if Clashes(t0, objects0, sha) {
      var p :| p in Files(t0) && sha(Files(t0)[p]) in objects0 && |objects0[sha(Files(t0)[p])]| != |Files(t0)[p]|;
      FileIsStored(m, t0, snapshots, objects, sha, p);
    }
    if p, q :| p in Files(t0) && q in Files(t0) && sha(Files(t0)[p]) == sha(Files(t0)[q]) && |Files(t0)[p]| != |Files(t0)[q]| {
      FileIsStored(m, t0, snapshots, objects, sha, p);
      var d := sha(Files(t0)[p]);
      assert |objects[d]| != |Files(t0)[p]| || |objects[d]| != |Files(t0)[q]|;
    }
  }

  // The artifact can be read after the capture: from an object that is there
  // already, or from one that a file of the tree provides.
  ghost predicate ReadableSoon(a: Artifact, t: Tree, objects0: map<Digest, Bytes>, sha: Bytes -> Digest) {
    && IdPattern(a.id) && a.size <= 2_097_152
    && (if a.sha in objects0 then sha(objects0[a.sha]) == a.sha && |objects0[a.sha]| == a.size
        else exists p :: p in Files(t) && Tidy(p) && sha(Files(t)[p]) == a.sha && |Files(t)[p]| == a.size)
  }

  lemma SoonIsIntact(m: Manifest, a: Artifact, t0: Tree, objects0: map<Digest, Bytes>, snapshots: map<string, Manifest>,
                     objects: map<Digest, Bytes>, sha: Bytes -> Digest)
    requires SafetySnapshot(m, t0, snapshots, objects, sha) && AfterCapture(t0, objects0, objects, snapshots, sha)
    requires Referenced(snapshots, a.sha) && !Twins(t0, sha)
    ensures Intact(a, objects, sha) <==> ReadableSoon(a, t0, objects0, sha)
  {
    var d := a.sha;
    if d !in objects0 {
      if d in objects {
        assert OfFile(d, objects[d], t0, sha);
        var q :| q in Files(t0) && Tidy(q) && Files(t0)[q] == objects[d];
        if p :| p in Files(t0) && Tidy(p) && sha(Files(t0)[p]) == d {
          assert |Files(t0)[p]| == |Files(t0)[q]|;
        }
      } else if p :| p in Files(t0) && Tidy(p) && sha(Files(t0)[p]) == d {
        FileIsStored(m, t0, snapshots, objects, sha, p);
        assert false;
      }
    }
  }

  ghost predicate AllSoon(arts: seq<Artifact>, t: Tree, objects0: map<Digest, Bytes>, sha: Bytes -> Digest) {
    forall a :: a in arts ==> ReadableSoon(a, t, objects0, sha)
  }

  // Whether the target can be read after the capture, told from the start.
  lemma ReadableFromStart(m: Manifest, target: Manifest, t0: Tree, objects0: map<Digest, Bytes>, snapshots: map<string, Manifest>,
                          objects: map<Digest, Bytes>, sha: Bytes -> Digest)
    requires SafetySnapshot(m, t0, snapshots, objects, sha) && AfterCapture(t0, objects0, objects, snapshots, sha)
    requires target.id in snapshots ==> snapshots[target.id] == target
    requires !Twins(t0, sha)
    ensures Readable(target, snapshots, objects, sha) <==>
            target.artifacts == [] || (target.id in snapshots && AllSoon(target.artifacts, t0, objects0, sha))
  {
    if target.id in snapshots {
      forall a | a in target.artifacts ensures Intact(a, objects, sha) <==> ReadableSoon(a, t0, objects0, sha) {
        assert Referenced(snapshots, a.sha);
        SoonIsIntact(m, a, t0, objects0, snapshots, objects, sha);
      }
    }
  }

  // ---- rollback ------------------------------------------------------------

  lemma HeldIsDiscoverable(arts: seq<Artifact>, t: Tree, sha: Bytes -> Digest)
    requires Holds(arts, Files(t), sha) && |arts| <= MAX_FILES && ([] in t ==> t[[]].Dir?)
    ensures Discoverable(t)
  {
    PathCount(arts);
  }

  // Read back: a held snapshot compares unchanged.
  method ReadBack(h: Host, m: Manifest) returns (ok: bool)
    requires h.Valid() && StoreAgrees(h, m) && |m.artifacts| <= MAX_FILES && ([] in h.tree ==> h.tree[[]].Dir?)
    modifies h`faults
    ensures h.faults >= old(h.faults)
    ensures ok ==> m.id in h.snapshots && Holds(m.artifacts, Files(h.tree), h.sha)
    ensures !ok ==> h.faults > old(h.faults) || m.id !in h.snapshots || !Holds(m.artifacts, Files(h.tree), h.sha)
  {
    if Holds(m.artifacts, Files(h.tree), h.sha) { HeldIsDiscoverable(m.artifacts, h.tree, h.sha); }
    var diff := BuildDiff(h, m.id);
    ok := diff.Some? && !diff.value.changed;
  }

  lemma RolledBackState(m: Manifest, t0: Tree, t: Tree, snapshots: map<string, Manifest>, objects: map<Digest, Bytes>,
                        sha: Bytes -> Digest)
    requires SafetySnapshot(m, t0, snapshots, objects, sha) && AllTidy(t0) && Holds(m.artifacts, Files(t), sha)
    ensures Digests(t, sha) == Digests(t0, sha)
  {
    HoldersAgree(m.artifacts, t0, t, sha);
  }

  lemma FewerReturnable(t0: Tree, paths: set<Path>, more: set<Path>, objects: map<Digest, Bytes>, sha: Bytes -> Digest)
    requires paths <= more && Returnable(t0, more, objects, sha)
    ensures Returnable(t0, paths, objects, sha)
  {
    SubsetSize(Files(t0).Keys + paths, Files(t0).Keys + more);
  }

  method ApplySafety(h: Host, m: Manifest, ghost t0: Tree) returns (ok: bool, ghost left: set<Path>)
    requires h.Valid() && SafetySnapshot(m, t0, h.snapshots, h.objects, h.sha) && KeepsShape(t0, h.tree)
    modifies h`tree, h`faults
    ensures h.Valid() && h.faults >= old(h.faults) && |left| <= 1
    ensures ok ==> Returnable(t0, Files(old(h.tree)).Keys, h.objects, h.sha)
    ensures !ok ==> h.faults > old(h.faults) || !Returnable(t0, Files(old(h.tree)).Keys, h.objects, h.sha)
    ensures !ok ==> h.faults > old(h.faults) || !Returnable(t0, Files(h.tree).Keys, h.objects, h.sha)
    ensures ok ==> Holds(m.artifacts, Files(h.tree), h.sha) && ([] in h.tree ==> h.tree[[]].Dir?)
    ensures Mixed(Files(old(h.tree)), Files(h.tree), m.artifacts, h.sha, left)
  {
    ghost var was, before := Files(h.tree).Keys, h.faults;
    SafetyIsApplicable(m, t0, h.tree, h.snapshots, h.objects, h.sha);
    ok, left := Apply(h, m);
    if !ok && h.faults == before && Returnable(t0, Files(h.tree).Keys, h.objects, h.sha) {
      FewerReturnable(t0, was, Files(h.tree).Keys, h.objects, h.sha);
    }
  }

  // A tree that holds the safety snapshot compares unchanged and is as before.
  method ReadBackSafety(h: Host, m: Manifest, ghost t0: Tree) returns (ok: bool)
    requires h.Valid() && SafetySnapshot(m, t0, h.snapshots, h.objects, h.sha) && AllTidy(t0)
    requires Holds(m.artifacts, Files(h.tree), h.sha) && ([] in h.tree ==> h.tree[[]].Dir?)
    modifies h`faults
    ensures h.faults >= old(h.faults) && (!ok ==> h.faults > old(h.faults))
    ensures Digests(h.tree, h.sha) == Digests(t0, h.sha)
  {
    RolledBackState(m, t0, h.tree, h.snapshots, h.objects, h.sha);
    ok := ReadBack(h, m);
  }

  method Rollback(h: Host, m: Manifest, ghost t0: Tree) returns (ok: bool, ghost left: set<Path>)
    requires h.Valid() && SafetySnapshot(m, t0, h.snapshots, h.objects, h.sha) && KeepsShape(t0, h.tree)
    modifies h`tree, h`faults
    ensures h.Valid() && h.faults >= old(h.faults) && |left| <= 1
    ensures ok ==> Digests(h.tree, h.sha) == Digests(t0, h.sha)
    ensures ok ==> Returnable(t0, Files(old(h.tree)).Keys, h.objects, h.sha)
    ensures !ok ==> h.faults > old(h.faults) || !Returnable(t0, Files(old(h.tree)).Keys, h.objects, h.sha)
    ensures !ok ==> h.faults > old(h.faults) || !Returnable(t0, Files(h.tree).Keys, h.objects, h.sha)
    ensures Mixed(Files(old(h.tree)), Files(h.tree), m.artifacts, h.sha, left)
  {
    ok, left := ApplySafety(h, m, t0);
    if !ok { return; }
    ok := ReadBackSafety(h, m, t0);
  }

  // ---- what the tree holds -------------------------------------------------

  // Every file outside left has the digest it had in t0 or has in the snapshot.
  ghost predicate Accounted(t: Tree, t0: Tree, arts: seq<Artifact>, sha: Bytes -> Digest, left: set<Path>) {
    forall p :: p in Files(t) && p !in left ==>
      FromSnapshot(p, Files(t)[p], arts, sha) || (p in Files(t0) && sha(Files(t)[p]) == sha(Files(t0)[p]))
  }

  // What the rollback meets: no more files than the old, the target's, and a
  // leftover.
  ghost predicate Bounded(t: Tree, t0: Tree, arts: seq<Artifact>, left: set<Path>) {
    Files(t).Keys <= Files(t0).Keys + PathsOf(arts) + left
  }

  lemma MixedIsBounded(t0: Tree, t: Tree, arts: seq<Artifact>, sha: Bytes -> Digest, left: set<Path>)
    requires Mixed(Files(t0), Files(t), arts, sha, left)
    ensures Bounded(t, t0, arts, left) && Accounted(t, t0, arts, sha, left)
  {
    forall p | p in Files(t) && p !in left && FromSnapshot(p, Files(t)[p], arts, sha) ensures p in PathsOf(arts) {
      var a :| a in arts && a.path == p;
    }
  }

  lemma StillAccounted(m: Manifest, t0: Tree, t: Tree, t': Tree, arts: seq<Artifact>, left: set<Path>, more: set<Path>,
                       snapshots: map<string, Manifest>, objects: map<Digest, Bytes>, sha: Bytes -> Digest)
    requires SafetySnapshot(m, t0, snapshots, objects, sha) && Accounted(t, t0, arts, sha, left)
    requires Mixed(Files(t), Files(t'), m.artifacts, sha, more)
    ensures Accounted(t', t0, arts, sha, left + more)
  {
    forall p | p in Files(t') && p !in left + more && FromSnapshot(p, Files(t')[p], m.artifacts, sha)
      ensures p in Files(t0) && sha(Files(t')[p]) == sha(Files(t0)[p])
    {
      var a :| a in m.artifacts && a.path == p && a.sha == sha(Files(t')[p]);
      assert TakenFrom(a, t0, sha);
    }
  }

  lemma UnionSize(a: set<Path>, b: set<Path>)
    ensures |a + b| <= |a| + |b|
  {
    assert a + b == a + (b - a) && b == (b - a) + (b * a);
  }

  // ---- the write half of the transaction -----------------------------------

  // Where a restore ends. TargetCheck is a refusal before the transaction.
  datatype Stage = TargetCheck | PrecheckStage | SafetyStage | ValidationStage | ApplyStage | ReadbackStage | Done

  // How an apply of the target onto t0, compared afterwards, leaves the tree.
  ghost predicate Compared(stage: Stage, t0: Tree, t: Tree, target: Manifest, sha: Bytes -> Digest, temps: set<Path>) {
    && stage in {ApplyStage, ReadbackStage, Done} && |temps| <= 1 && KeepsShape(t0, t)
    && Bounded(t, t0, target.artifacts, temps) && Accounted(t, t0, target.artifacts, sha, temps)
    && (stage == Done ==> Welcomes(t0, target.artifacts) && Holds(target.artifacts, Files(t), sha))
  }

  // The same when no call fails.
  ghost predicate ComparedExactly(stage: Stage, t0: Tree, t: Tree, target: Manifest, snapshots: map<string, Manifest>) {
    && (stage == Done <==> target.id in snapshots && Welcomes(t0, target.artifacts))
    && (stage != Done ==> Files(t0).Keys + Files(t).Keys == Files(t0).Keys + Reach(t0, target.artifacts))
  }

  lemma UnreachedWhenNotWelcome(t0: Tree, t: Tree, target: Manifest, snapshots: map<string, Manifest>, stage: Stage)
    requires !Welcomes(t0, target.artifacts) && ReachesOnly(t0, t, target.artifacts) && stage != Done
    ensures ComparedExactly(stage, t0, t, target, snapshots)
  {
    assert Files(t0).Keys + Files(t).Keys == Files(t0).Keys + Reach(t0, target.artifacts);
  }

  // A target that was pruned can only be the empty one.
  lemma PrunedTarget(t0: Tree, t: Tree, target: Manifest, snapshots: map<string, Manifest>, objects: map<Digest, Bytes>,
                     sha: Bytes -> Digest, stage: Stage)
    requires Readable(target, snapshots, objects, sha) && target.id !in snapshots && Holds(target.artifacts, Files(t), sha) && stage != Done
    ensures ComparedExactly(stage, t0, t, target, snapshots)
  {
    assert target.artifacts == [] && Sort(target.artifacts, ArtifactBefore) == [];
    assert Reach(t0, target.artifacts) == {} && Files(t).Keys == {};
  }

  method WriteAndCompare(h: Host, target: Manifest) returns (stage: Stage, ghost temps: set<Path>)
    requires h.Valid() && ValidManifest(target) && StoreAgrees(h, target) && Readable(target, h.snapshots, h.objects, h.sha)
    modifies h`tree, h`faults
    ensures h.Valid() && h.faults >= old(h.faults) && Compared(stage, old(h.tree), h.tree, target, h.sha, temps)
    ensures stage == Done ==> target.id in h.snapshots
    ensures h.faults == old(h.faults) ==> ComparedExactly(stage, old(h.tree), h.tree, target, h.snapshots)
    ensures stage != Done ==> h.faults > old(h.faults) || target.id !in h.snapshots || !Welcomes(old(h.tree), target.artifacts)
    ensures temps != {} ==> h.faults > old(h.faults)
  {
    ghost var t0, before := h.tree, h.faults;
    var ok;
    ok, temps := Apply(h, target);
    MixedIsBounded(t0, h.tree, target.artifacts, h.sha, temps);
    if !ok {
      stage := ApplyStage;
      if h.faults == before { UnreachedWhenNotWelcome(t0, h.tree, target, h.snapshots, stage); }
      return;
    }
    ok := ReadBack(h, target);
    stage := if ok then Done else ReadbackStage;
    if !ok && h.faults == before { PrunedTarget(t0, h.tree, target, h.snapshots, h.objects, h.sha, stage); }
  }

  // What a rollback leaves, from a tree in which left0 was left over.
  ghost predicate Settled(rolledBack: bool, t0: Tree, t: Tree, arts: seq<Artifact>, sha: Bytes -> Digest, left: set<Path>) {
    && |left| <= 2 && Accounted(t, t0, arts, sha, left)
    && (rolledBack ==> Digests(t, sha) == Digests(t0, sha))
  }

  lemma SettledAfter(m: Manifest, t0: Tree, t: Tree, t': Tree, arts: seq<Artifact>, left: set<Path>, more: set<Path>,
                     snapshots: map<string, Manifest>, objects: map<Digest, Bytes>, sha: Bytes -> Digest, rolledBack: bool)
    requires SafetySnapshot(m, t0, snapshots, objects, sha) && Accounted(t, t0, arts, sha, left)
    requires Mixed(Files(t), Files(t'), m.artifacts, sha, more) && |left| <= 1 && |more| <= 1
    requires rolledBack ==> Digests(t', sha) == Digests(t0, sha)
    ensures Settled(rolledBack, t0, t', arts, sha, left + more)
  {
    StillAccounted(m, t0, t, t', arts, left, more, snapshots, objects, sha);
    UnionSize(left, more);
  }

  // Both failure branches: roll back, then settle the transaction.
  method RollbackAndSettle(h: Host, tx: Transaction, m: Manifest, ghost t0: Tree, ghost arts: seq<Artifact>, ghost left0: set<Path>)
    returns (rolledBack: bool, ghost left: set<Path>)
    requires h.Valid() && SafetySnapshot(m, t0, h.snapshots, h.objects, h.sha) && KeepsShape(t0, h.tree) && tx.state.Applied?
    requires Accounted(h.tree, t0, arts, h.sha, left0) && |left0| <= 1
    modifies h`tree, h`faults, tx
    ensures h.Valid() && h.faults >= old(h.faults) && Settled(rolledBack, t0, h.tree, arts, h.sha, left)
    ensures tx.state == if rolledBack then RolledBack else Ambiguous
    ensures rolledBack ==> Returnable(t0, Files(old(h.tree)).Keys, h.objects, h.sha)
    ensures !rolledBack ==> h.faults > old(h.faults) || !Returnable(t0, Files(old(h.tree)).Keys, h.objects, h.sha)
    ensures !rolledBack ==> h.faults > old(h.faults) || !Returnable(t0, Files(h.tree).Keys, h.objects, h.sha)
    ensures left0 <= left
  {
    ghost var t := h.tree;
    ghost var more;
    rolledBack, more := Rollback(h, m, t0);
    SettledAfter(m, t0, t, h.tree, arts, left0, more, h.snapshots, h.objects, h.sha, rolledBack);
    left := left0 + more;
    var advanced := tx.Advance(if rolledBack then RolledBack else Ambiguous);
  }

  // How the write half ends, whatever failed: the causes of a failed rollback
  // are a failing call of its own, a name that the store cannot keep apart,
  // objects of one digest, or more files than discovery reads. The files are
  // then in the tree that is left, and are the old, the target's, and temps, a
  // leftover of the apply.
  ghost predicate Ended(stage: Stage, state: State, rollbackFaults: nat, t0: Tree, t: Tree, target: Manifest,
                        objects: map<Digest, Bytes>, sha: Bytes -> Digest, temps: set<Path>, left: set<Path>) {
    && stage in {ApplyStage, ReadbackStage, Done} && |temps| <= 1
    && (stage == Done ==> state.Committed? && Welcomes(t0, target.artifacts) && Holds(target.artifacts, Files(t), sha))
    && (stage != Done ==> state.RolledBack? || state.Ambiguous?)
    && Settled(state.RolledBack?, t0, t, target.artifacts, sha, left)
    && temps <= left
    && (state.Ambiguous? ==> rollbackFaults > 0 || !Returnable(t0, PathsOf(target.artifacts) + temps, objects, sha))
    && (state.Ambiguous? ==> rollbackFaults > 0 || !Returnable(t0, Files(t).Keys, objects, sha))
  }

  // How many calls failed in all, against those of the rollback: a leftover and
  // a target that is on record, welcome and not committed each take a failing
  // call before it.
  ghost predicate Counted(stage: Stage, rollbackFaults: nat, allFaults: nat, t0: Tree, target: Manifest,
                          snapshots: map<string, Manifest>, temps: set<Path>) {
    && rollbackFaults <= allFaults
    && (temps != {} ==> rollbackFaults < allFaults)
    && (stage != Done && target.id in snapshots && Welcomes(t0, target.artifacts) ==> rollbackFaults < allFaults)
  }

  // How it ends when no call fails: committed when the target is still on
  // record and nothing is in its way, otherwise rolled back when the files
  // written until then leave room.
  ghost predicate EndedExactly(stage: Stage, state: State, t0: Tree, target: Manifest, snapshots: map<string, Manifest>,
                               objects: map<Digest, Bytes>, sha: Bytes -> Digest) {
    && (stage == Done <==> target.id in snapshots && Welcomes(t0, target.artifacts))
    && (state.RolledBack? <==> stage != Done && Returnable(t0, Reach(t0, target.artifacts), objects, sha))
  }

  lemma CommittedEnd(t0: Tree, t: Tree, target: Manifest, snapshots: map<string, Manifest>, objects: map<Digest, Bytes>,
                     sha: Bytes -> Digest, temps: set<Path>)
    requires Compared(Done, t0, t, target, sha, temps)
    ensures Ended(Done, Committed, 0, t0, t, target, objects, sha, temps, temps)
    ensures ComparedExactly(Done, t0, t, target, snapshots) ==> EndedExactly(Done, Committed, t0, target, snapshots, objects, sha)
  {
  }

  lemma BoundedReturn(t0: Tree, t: Tree, arts: seq<Artifact>, objects: map<Digest, Bytes>, sha: Bytes -> Digest, temps: set<Path>)
    requires Bounded(t, t0, arts, temps) && Returnable(t0, PathsOf(arts) + temps, objects, sha)
    ensures Returnable(t0, Files(t).Keys, objects, sha)
  {
    SubsetSize(Files(t0).Keys + Files(t).Keys, Files(t0).Keys + (PathsOf(arts) + temps));
  }

  lemma FailedEnd(stage: Stage, rolledBack: bool, rollbackFaults: nat, t0: Tree, t1: Tree, t: Tree, target: Manifest,
                  objects: map<Digest, Bytes>, sha: Bytes -> Digest, temps: set<Path>, left: set<Path>)
    requires Compared(stage, t0, t1, target, sha, temps) && stage != Done
    requires Settled(rolledBack, t0, t, target.artifacts, sha, left) && temps <= left
    requires !rolledBack ==> rollbackFaults > 0 || !Returnable(t0, Files(t1).Keys, objects, sha)
    requires !rolledBack ==> rollbackFaults > 0 || !Returnable(t0, Files(t).Keys, objects, sha)
    ensures Ended(stage, if rolledBack then RolledBack else Ambiguous, rollbackFaults, t0, t, target, objects, sha, temps, left)
  {
    if Returnable(t0, PathsOf(target.artifacts) + temps, objects, sha) {
      BoundedReturn(t0, t1, target.artifacts, objects, sha, temps);
    }
  }

  lemma FailedEndExactly(stage: Stage, rolledBack: bool, t0: Tree, t1: Tree, target: Manifest, snapshots: map<string, Manifest>,
                         objects: map<Digest, Bytes>, sha: Bytes -> Digest)
    requires ComparedExactly(stage, t0, t1, target, snapshots) && stage != Done
    requires rolledBack <==> Returnable(t0, Files(t1).Keys, objects, sha)
    ensures EndedExactly(stage, if rolledBack then RolledBack else Ambiguous, t0, target, snapshots, objects, sha)
  {
  }

  method SettleCommitted(tx: Transaction)
    requires tx.state.Applied?
    modifies tx
    ensures tx.state.Committed?
  {
    var advanced := tx.Advance(Verified);
    assert advanced;
    advanced := tx.Advance(Committed);
    assert advanced;
  }

  // Write, compare, settle: from Applied to a terminal state.
  method Commit(h: Host, tx: Transaction, target: Manifest, safety: Manifest)
    returns (stage: Stage, rolledBack: bool, ghost rollbackFaults: nat, ghost temps: set<Path>, ghost left: set<Path>)
    requires h.Valid() && tx.state.Applied? && ValidManifest(target) && StoreAgrees(h, target)
    requires SafetySnapshot(safety, h.tree, h.snapshots, h.objects, h.sha) && Readable(target, h.snapshots, h.objects, h.sha)
    modifies h`tree, h`faults, tx
    ensures h.Valid() && h.faults >= old(h.faults) && (rolledBack <==> tx.state.RolledBack?)
    ensures Ended(stage, tx.state, rollbackFaults, old(h.tree), h.tree, target, h.objects, h.sha, temps, left)
    ensures Counted(stage, rollbackFaults, h.faults - old(h.faults), old(h.tree), target, h.snapshots, temps)
    ensures stage == Done ==> target.id in h.snapshots
    ensures h.faults == old(h.faults) ==> EndedExactly(stage, tx.state, old(h.tree), target, h.snapshots, h.objects, h.sha)
  {
    ghost var t0, faults0 := h.tree, h.faults;
    stage, temps := WriteAndCompare(h, target);
    ghost var t1, faults1 := h.tree, h.faults;
    if stage == Done {
      SettleCommitted(tx);
      CommittedEnd(t0, t1, target, h.snapshots, h.objects, h.sha, temps);
      return stage, false, 0, temps, temps;
    }
    rolledBack, left := RollbackAndSettle(h, tx, safety, t0, target.artifacts, temps);
    rollbackFaults := h.faults - faults1;
    FailedEnd(stage, rolledBack, rollbackFaults, t0, t1, h.tree, target, h.objects, h.sha, temps, left);
    if h.faults == faults0 { FailedEndExactly(stage, rolledBack, t0, t1, target, h.snapshots, h.objects, h.sha); }
  }

  // ---- the whole transaction -----------------------------------------------

  datatype Reply = Reply(stage: Stage, state: State, rolledBack: bool)

  predicate BeforeApply(s: Stage) { s in {TargetCheck, PrecheckStage, SafetyStage, ValidationStage} }

  // What has been found out about the tree when a stage is reached.
  ghost predicate Passed(stage: Stage, t: Tree, artifactId: Path -> string, objects0: map<Digest, Bytes>, sha: Bytes -> Digest) {
    && (stage != TargetCheck && stage != PrecheckStage ==> Discoverable(t))
    && (stage == ValidationStage || !BeforeApply(stage) ==> CaptureFits(t, artifactId, objects0, sha))
  }

  // Discovery and capture of the current tree.
  method TakeSafety(h: Host, target: Manifest) returns (stage: Stage, safety: Manifest)
    requires h.Valid() && target.id in h.snapshots && StoreAgrees(h, target)
    modifies h`snapshots, h`objects, h`faults
    ensures h.Valid() && h.faults >= old(h.faults) && StoreAgrees(h, target)
    ensures h.lastWorking in old(h.snapshots) ==> h.lastWorking in h.snapshots
    ensures stage in {PrecheckStage, SafetyStage, ValidationStage}
    ensures stage == PrecheckStage ==> h.faults > old(h.faults) || !Discoverable(h.tree)
    ensures stage == SafetyStage ==> h.faults > old(h.faults) || !CaptureFits(h.tree, h.artifactId, old(h.objects), h.sha)
    ensures Passed(stage, h.tree, h.artifactId, old(h.objects), h.sha)
    ensures stage == ValidationStage ==> SafetySnapshot(safety, h.tree, h.snapshots, h.objects, h.sha)
    ensures stage == ValidationStage ==> AfterCapture(h.tree, old(h.objects), h.objects, h.snapshots, h.sha)
  {
    safety := Manifest(SCHEMA_VERSION, "", "admin", 0, []);
    var paths := Discover(h);
    if paths.None? { return PrecheckStage, safety; }
    var captured := CaptureTree(h, paths.value);
    if captured.None? { return SafetyStage, safety; }
    return ValidationStage, captured.value;
  }

  lemma CapturedIsSafety(h: Host, m: Manifest, paths: seq<Path>, objects0: map<Digest, Bytes>)
    requires h.Valid() && Discovered(paths, h.tree) && Discoverable(h.tree)
    requires m.id in h.snapshots && h.snapshots[m.id] == m && m.schema == SCHEMA_VERSION && m.component == "admin"
    requires CapturedFrom(m.artifacts, paths, h.artifactId, h.tree, h.sha)
    requires forall a :: a in m.artifacts ==> Stored(a, h.objects, h.sha)
    requires ObjectsFrom(objects0, h.objects, paths, h.tree, h.sha)
    requires forall d :: d in objects0 && Referenced(h.snapshots, d) ==> d in h.objects
    ensures SafetySnapshot(m, h.tree, h.snapshots, h.objects, h.sha)
    ensures AfterCapture(h.tree, objects0, h.objects, h.snapshots, h.sha)
  {
    CaptureAdds(paths, h.tree, objects0, h.objects, h.snapshots, h.sha);
    CaptureIsSafety(m, paths, h.artifactId, h.tree, h.snapshots, h.objects, h.sha);
  }

  method CaptureTree(h: Host, paths: seq<Path>) returns (safety: Option<Manifest>)
    requires h.Valid() && Discovered(paths, h.tree) && Discoverable(h.tree)
    modifies h`snapshots, h`objects, h`faults
    ensures h.Valid() && h.faults >= old(h.faults) && AddsOne(old(h.snapshots), h.snapshots, h.lastWorking)
    ensures safety.None? ==> h.faults > old(h.faults) || !CaptureFits(h.tree, h.artifactId, old(h.objects), h.sha)
    ensures safety.Some? ==>
              && CaptureFits(h.tree, h.artifactId, old(h.objects), h.sha)
              && SafetySnapshot(safety.value, h.tree, h.snapshots, h.objects, h.sha)
              && AfterCapture(h.tree, old(h.objects), h.objects, h.snapshots, h.sha)
  {
    FitsDiscovered(paths, h.tree, h.artifactId, h.objects, h.sha);
    assert [] !in Files(h.tree);
    safety := h.Capture("admin", paths);
    if safety.Some? { CapturedIsSafety(h, safety.value, paths, old(h.objects)); }
  }

  // Content validation, between two steps of the transaction.
  method CheckTarget(h: Host, tx: Transaction, target: Manifest) returns (valid: bool)
    requires h.Valid() && tx.state.Precheck? && ValidManifest(target) && StoreAgrees(h, target)
    modifies h`faults, tx
    ensures h.faults >= old(h.faults) && tx.state == if valid then Applied else Failed
    ensures valid ==> Readable(target, h.snapshots, h.objects, h.sha)
    ensures !valid ==> h.faults > old(h.faults) || !Readable(target, h.snapshots, h.objects, h.sha)
  {
    var advanced := tx.Advance(Snapshot);
    assert advanced;
    valid := ValidateContent(h, target);
    if !valid {
      var failed := tx.Advance(Failed);
      return;
    }
    advanced := tx.Advance(Validated);
    assert advanced;
    advanced := tx.Advance(Applied);
    assert advanced;
  }

  // Safety snapshot and content validation: the tree is only read.
  method Prepare(h: Host, tx: Transaction, target: Manifest) returns (stage: Stage, safety: Manifest)
    requires h.Valid() && tx.state.Precheck?
    requires ValidManifest(target) && target.id in h.snapshots && StoreAgrees(h, target)
    modifies h`snapshots, h`objects, h`faults, tx
    ensures h.Valid() && h.faults >= old(h.faults) && StoreAgrees(h, target)
    ensures h.lastWorking in old(h.snapshots) ==> h.lastWorking in h.snapshots
    ensures stage in {PrecheckStage, SafetyStage, ValidationStage, ApplyStage}
    ensures stage == PrecheckStage ==> h.faults > old(h.faults) || !Discoverable(h.tree)
    ensures stage == SafetyStage ==> h.faults > old(h.faults) || !CaptureFits(h.tree, h.artifactId, old(h.objects), h.sha)
    ensures stage == ValidationStage ==> h.faults > old(h.faults) || !Readable(target, h.snapshots, h.objects, h.sha)
    ensures Passed(stage, h.tree, h.artifactId, old(h.objects), h.sha)
    ensures stage in {ValidationStage, ApplyStage} ==> AfterCapture(h.tree, old(h.objects), h.objects, h.snapshots, h.sha)
    ensures stage != ApplyStage ==> tx.state.Failed?
    ensures stage in {ValidationStage, ApplyStage} ==> SafetySnapshot(safety, h.tree, h.snapshots, h.objects, h.sha)
    ensures stage == ApplyStage ==>
              && tx.state.Applied? && SafetySnapshot(safety, h.tree, h.snapshots, h.objects, h.sha)
              && Readable(target, h.snapshots, h.objects, h.sha)
  {
    stage, safety := TakeSafety(h, target);
    if stage != ValidationStage {
      var failed := tx.Advance(Failed);
      return;
    }
    var valid := CheckTarget(h, tx, target);
    if valid { stage := ApplyStage; }
  }

  // The request check before the transaction.
  method FindTarget(h: Host, targetId: string) returns (r: Option<Manifest>)
    requires h.Valid()
    modifies h`faults
    ensures h.faults >= old(h.faults)
    ensures r.Some? ==> targetId in h.snapshots && r.value == h.snapshots[targetId] && ValidManifest(r.value)
    ensures r.None? ==> h.faults > old(h.faults) || targetId !in h.snapshots || !ValidManifest(h.snapshots[targetId])
  {
    r := h.Get(targetId);
    if r.Some? {
      var valid := ValidateManifest(r.value);
      if !valid { r := None; }
    }
  }

  // What a restore tells and leaves: an end before the first write leaves the
  // tree alone, every later end is one of three.
  ghost predicate Outcome(reply: Reply, rollbackFaults: nat, t0: Tree, t: Tree, target: Manifest, objects: map<Digest, Bytes>,
                          sha: Bytes -> Digest, temps: set<Path>, left: set<Path>) {
    && (BeforeApply(reply.stage) ==> t == t0 && !reply.rolledBack)
    && (BeforeApply(reply.stage) && reply.stage != TargetCheck ==> reply.state.Failed?)
    && (!BeforeApply(reply.stage) ==>
          && (reply.rolledBack <==> reply.state.RolledBack?)
          && Ended(reply.stage, reply.state, rollbackFaults, t0, t, target, objects, sha, temps, left))
  }

  // The same when no call fails; the snapshots and objects are those after the
  // safety capture.
  ghost predicate OutcomeExactly(reply: Reply, t0: Tree, target: Manifest, snapshots: map<string, Manifest>,
                                 objects: map<Digest, Bytes>, sha: Bytes -> Digest) {
    && (reply.stage == PrecheckStage ==> !Discoverable(t0))
    && (reply.stage == ValidationStage ==> !Readable(target, snapshots, objects, sha))
    && (!BeforeApply(reply.stage) ==> EndedExactly(reply.stage, reply.state, t0, target, snapshots, objects, sha))
  }

  // The end when no call fails, told from what there is at the start; kept says
  // whether the target survives the pruning after the capture.
  ghost predicate EndFromStart(reply: Reply, t0: Tree, target: Manifest, kept: bool, objects0: map<Digest, Bytes>,
                               artifactId: Path -> string, sha: Bytes -> Digest) {
    if !Discoverable(t0) then reply.stage == PrecheckStage
    else if !CaptureFits(t0, artifactId, objects0, sha) then reply.stage == SafetyStage
    else !Twins(t0, sha) ==>
      if target.artifacts != [] && !(kept && AllSoon(target.artifacts, t0, objects0, sha)) then reply.stage == ValidationStage
      else
        && !BeforeApply(reply.stage)
        && (reply.stage == Done <==> kept && Welcomes(t0, target.artifacts))
        && (reply.state.RolledBack? <==>
              reply.stage != Done && AllTidy(t0) && !Clashes(t0, objects0, sha)
              && |Files(t0).Keys + Reach(t0, target.artifacts)| <= 128)
  }

  lemma EarlyEnd(reply: Reply, t0: Tree, target: Manifest, snapshots: map<string, Manifest>, objects0: map<Digest, Bytes>,
                 objects: map<Digest, Bytes>, artifactId: Path -> string, sha: Bytes -> Digest, m: Manifest)
    requires reply.stage in {PrecheckStage, SafetyStage, ValidationStage} && Passed(reply.stage, t0, artifactId, objects0, sha)
    requires reply.stage == PrecheckStage ==> !Discoverable(t0)
    requires reply.stage == SafetyStage ==> !CaptureFits(t0, artifactId, objects0, sha)
    requires reply.stage == ValidationStage ==>
               && !Readable(target, snapshots, objects, sha) && AfterCapture(t0, objects0, objects, snapshots, sha)
               && SafetySnapshot(m, t0, snapshots, objects, sha)
    requires target.id in snapshots ==> snapshots[target.id] == target
    ensures EndFromStart(reply, t0, target, target.id in snapshots, objects0, artifactId, sha)
  {
    if reply.stage == ValidationStage && !Twins(t0, sha) {
      ReadableFromStart(m, target, t0, objects0, snapshots, objects, sha);
    }
  }

  lemma LateEnd(reply: Reply, t0: Tree, target: Manifest, snapshots: map<string, Manifest>, objects0: map<Digest, Bytes>,
                objects: map<Digest, Bytes>, artifactId: Path -> string, sha: Bytes -> Digest, m: Manifest)
    requires !BeforeApply(reply.stage) && Passed(reply.stage, t0, artifactId, objects0, sha)
    requires OutcomeExactly(reply, t0, target, snapshots, objects, sha) && Readable(target, snapshots, objects, sha)
    requires SafetySnapshot(m, t0, snapshots, objects, sha) && AfterCapture(t0, objects0, objects, snapshots, sha)
    requires target.id in snapshots ==> snapshots[target.id] == target
    ensures EndFromStart(reply, t0, target, target.id in snapshots, objects0, artifactId, sha)
  {
    if !Twins(t0, sha) { ReadableFromStart(m, target, t0, objects0, snapshots, objects, sha); }
    if AllTidy(t0) { ClashFromStart(m, t0, objects0, snapshots, objects, sha); }
  }

  lemma EarlyOutcome(reply: Reply, t0: Tree, target: Manifest, objects: map<Digest, Bytes>, sha: Bytes -> Digest)
    requires BeforeApply(reply.stage) && !reply.rolledBack && (reply.stage != TargetCheck ==> reply.state.Failed?)
    ensures Outcome(reply, 0, t0, t0, target, objects, sha, {}, {})
  {
  }

  lemma LateOutcome(reply: Reply, rollbackFaults: nat, t0: Tree, t: Tree, target: Manifest, objects: map<Digest, Bytes>,
                    sha: Bytes -> Digest, temps: set<Path>, left: set<Path>)
    requires Ended(reply.stage, reply.state, rollbackFaults, t0, t, target, objects, sha, temps, left)
    requires reply.rolledBack <==> reply.state.RolledBack?
    ensures Outcome(reply, rollbackFaults, t0, t, target, objects, sha, temps, left)
    ensures !BeforeApply(reply.stage) && Terminal(reply.state)
  {
  }

  lemma CountedMore(stage: Stage, rollbackFaults: nat, faults: nat, allFaults: nat, t0: Tree, target: Manifest,
                    snapshots: map<string, Manifest>, temps: set<Path>)
    requires Counted(stage, rollbackFaults, faults, t0, target, snapshots, temps) && faults <= allFaults
    ensures Counted(stage, rollbackFaults, allFaults, t0, target, snapshots, temps)
  {
  }

  // The old state and the target together leave room for a leftover.
  ghost predicate Roomy(t0: Tree, arts: seq<Artifact>, objects: map<Digest, Bytes>, sha: Bytes -> Digest) {
    AllTidy(t0) && !Clashes(t0, objects, sha) && |Files(t0).Keys + PathsOf(arts)| < MAX_FILES
  }

  lemma RoomForOne(t0: Tree, arts: seq<Artifact>, objects: map<Digest, Bytes>, sha: Bytes -> Digest, temps: set<Path>)
    requires Roomy(t0, arts, objects, sha) && |temps| <= 1
    ensures Returnable(t0, PathsOf(arts) + temps, objects, sha)
  {
    UnionSize(Files(t0).Keys + PathsOf(arts), temps);
    assert Files(t0).Keys + (PathsOf(arts) + temps) == Files(t0).Keys + PathsOf(arts) + temps;
  }

  // One failing call in the whole restore never makes it ambiguous, when the
  // target is welcome and there is room.
  lemma OneFailureIsSafe(stage: Stage, state: State, rollbackFaults: nat, allFaults: nat, t0: Tree, t: Tree, target: Manifest,
                         snapshots: map<string, Manifest>, objects: map<Digest, Bytes>, sha: Bytes -> Digest,
                         temps: set<Path>, left: set<Path>)
    requires Ended(stage, state, rollbackFaults, t0, t, target, objects, sha, temps, left)
    requires Counted(stage, rollbackFaults, allFaults, t0, target, snapshots, temps) && allFaults <= 1
    requires Readable(target, snapshots, objects, sha) && (target.artifacts != [] || target.id in snapshots)
    requires Welcomes(t0, target.artifacts) && Roomy(t0, target.artifacts, objects, sha)
    ensures state.Committed? || state.RolledBack?
  {
    RoomForOne(t0, target.artifacts, objects, sha, temps);
  }

  lemma LateOutcomeExactly(reply: Reply, t0: Tree, target: Manifest, snapshots: map<string, Manifest>,
                           objects: map<Digest, Bytes>, sha: Bytes -> Digest)
    requires !BeforeApply(reply.stage) && EndedExactly(reply.stage, reply.state, t0, target, snapshots, objects, sha)
    ensures OutcomeExactly(reply, t0, target, snapshots, objects, sha)
  {
  }

  method CommitReply(h: Host, tx: Transaction, target: Manifest, safety: Manifest)
    returns (reply: Reply, ghost rollbackFaults: nat, ghost temps: set<Path>, ghost left: set<Path>)
    requires h.Valid() && tx.state.Applied? && ValidManifest(target) && StoreAgrees(h, target)
    requires SafetySnapshot(safety, h.tree, h.snapshots, h.objects, h.sha) && Readable(target, h.snapshots, h.objects, h.sha)
    modifies h`tree, h`faults, tx
    ensures h.Valid() && h.faults >= old(h.faults) && !BeforeApply(reply.stage) && Terminal(reply.state)
    ensures Outcome(reply, rollbackFaults, old(h.tree), h.tree, target, h.objects, h.sha, temps, left)
    ensures reply.stage == Done ==> target.id in h.snapshots
    ensures Counted(reply.stage, rollbackFaults, h.faults - old(h.faults), old(h.tree), target, h.snapshots, temps)
    ensures h.faults == old(h.faults) ==> OutcomeExactly(reply, old(h.tree), target, h.snapshots, h.objects, h.sha)
  {
    ghost var t0, before := h.tree, h.faults;
    var stage, rolledBack;
    stage, rolledBack, rollbackFaults, temps, left := Commit(h, tx, target, safety);
    reply := Reply(stage, tx.state, rolledBack);
    LateOutcome(reply, rollbackFaults, t0, h.tree, target, h.objects, h.sha, temps, left);
    if h.faults == before { LateOutcomeExactly(reply, t0, target, h.snapshots, h.objects, h.sha); }
  }

  // The read-only half; the reply counts when it is the end.
  method Begin(h: Host, tx: Transaction, target: Manifest, ghost t0: Tree, ghost objects0: map<Digest, Bytes>) returns (reply: Reply, safety: Manifest)
    requires h.Valid() && tx.state.Precheck? && t0 == h.tree && objects0 == h.objects
    requires ValidManifest(target) && target.id in h.snapshots && StoreAgrees(h, target)
    modifies h`snapshots, h`objects, h`faults, tx
    ensures h.Valid() && h.faults >= old(h.faults) && StoreAgrees(h, target) && reply.stage != TargetCheck
    ensures h.lastWorking in old(h.snapshots) ==> h.lastWorking in h.snapshots
    ensures BeforeApply(reply.stage) ==> Outcome(reply, 0, t0, t0, target, h.objects, h.sha, {}, {}) && Terminal(reply.state)
    ensures BeforeApply(reply.stage) && h.faults == old(h.faults) ==>
              && OutcomeExactly(reply, t0, target, h.snapshots, h.objects, h.sha)
              && EndFromStart(reply, t0, target, target.id in h.snapshots, objects0, h.artifactId, h.sha)
    ensures !BeforeApply(reply.stage) ==>
              && tx.state.Applied? && SafetySnapshot(safety, t0, h.snapshots, h.objects, h.sha)
              && Readable(target, h.snapshots, h.objects, h.sha) && AfterCapture(t0, objects0, h.objects, h.snapshots, h.sha)
              && Passed(ApplyStage, t0, h.artifactId, objects0, h.sha)
  {
    ghost var faults0 := h.faults;
    var stage;
    stage, safety := Prepare(h, tx, target);
    reply := Reply(stage, tx.state, false);
    if stage != ApplyStage {
      EarlyOutcome(reply, t0, target, h.objects, h.sha);
      if h.faults == faults0 { EarlyEnd(reply, t0, target, h.snapshots, objects0, h.objects, h.artifactId, h.sha, safety); }
    }
  }

  // The other half, after the objects and the failing calls of the first.
  method Finish(h: Host, tx: Transaction, target: Manifest, safety: Manifest, ghost t0: Tree, ghost objects0: map<Digest, Bytes>, ghost faults0: nat)
    returns (reply: Reply, ghost rollbackFaults: nat, ghost temps: set<Path>, ghost left: set<Path>)
    requires h.Valid() && tx.state.Applied? && ValidManifest(target) && StoreAgrees(h, target) && faults0 <= h.faults && t0 == h.tree
    requires SafetySnapshot(safety, t0, h.snapshots, h.objects, h.sha) && Readable(target, h.snapshots, h.objects, h.sha)
    requires AfterCapture(t0, objects0, h.objects, h.snapshots, h.sha) && Passed(ApplyStage, t0, h.artifactId, objects0, h.sha)
    modifies h`tree, h`faults, tx
    ensures h.Valid() && h.faults >= old(h.faults) && !BeforeApply(reply.stage) && Terminal(reply.state)
    ensures Outcome(reply, rollbackFaults, t0, h.tree, target, h.objects, h.sha, temps, left)
    ensures reply.stage == Done ==> target.id in h.snapshots
    ensures Counted(reply.stage, rollbackFaults, h.faults - faults0, t0, target, h.snapshots, temps)
    ensures h.faults == faults0 ==>
              && OutcomeExactly(reply, t0, target, h.snapshots, h.objects, h.sha)
              && EndFromStart(reply, t0, target, target.id in h.snapshots, objects0, h.artifactId, h.sha)
  {
    ghost var faults1 := h.faults;
    reply, rollbackFaults, temps, left := CommitReply(h, tx, target, safety);
    CountedMore(reply.stage, rollbackFaults, h.faults - faults1, h.faults - faults0, t0, target, h.snapshots, temps);
    if h.faults == faults0 { LateEnd(reply, t0, target, h.snapshots, objects0, h.objects, h.artifactId, h.sha, safety); }
  }

  // The transaction.
  method Transact(h: Host, target: Manifest)
    returns (reply: Reply, ghost rollbackFaults: nat, ghost temps: set<Path>, ghost left: set<Path>)
    requires h.Valid() && ValidManifest(target) && target.id in h.snapshots && StoreAgrees(h, target)
    modifies h`tree, h`snapshots, h`objects, h`faults
    ensures h.Valid() && h.faults >= old(h.faults) && reply.stage != TargetCheck && Terminal(reply.state)
    ensures h.lastWorking in old(h.snapshots) ==> h.lastWorking in h.snapshots
    ensures Outcome(reply, rollbackFaults, old(h.tree), h.tree, target, h.objects, h.sha, temps, left)
    ensures reply.stage == Done ==> target.id in h.snapshots
    ensures !BeforeApply(reply.stage) ==>
              && Counted(reply.stage, rollbackFaults, h.faults - old(h.faults), old(h.tree), target, h.snapshots, temps)
              && Readable(target, h.snapshots, h.objects, h.sha)
    ensures h.faults == old(h.faults) ==> OutcomeExactly(reply, old(h.tree), target, h.snapshots, h.objects, h.sha)
    ensures h.faults == old(h.faults) ==>
              EndFromStart(reply, old(h.tree), target, target.id in h.snapshots, old(h.objects), h.artifactId, h.sha)
  {
    ghost var t0, faults0, objects0 := h.tree, h.faults, h.objects;
    var tx := new Transaction();
    var safety;
    reply, safety := Begin(h, tx, target, t0, objects0);
    if BeforeApply(reply.stage) { return reply, 0, {}, {}; }
    reply, rollbackFaults, temps, left := Finish(h, tx, target, safety, t0, objects0, faults0);
  }

  lemma Unambiguous(reply: Reply, rollbackFaults: nat, allFaults: nat, t0: Tree, t: Tree, target: Manifest,
                    snapshots: map<string, Manifest>, objects: map<Digest, Bytes>, sha: Bytes -> Digest,
                    temps: set<Path>, left: set<Path>)
    requires Outcome(reply, rollbackFaults, t0, t, target, objects, sha, temps, left) && reply.stage != TargetCheck
    requires !BeforeApply(reply.stage) ==>
               && Counted(reply.stage, rollbackFaults, allFaults, t0, target, snapshots, temps)
               && Readable(target, snapshots, objects, sha)
    ensures allFaults <= 1 && (target.artifacts != [] || target.id in snapshots)
            && Welcomes(t0, target.artifacts) && Roomy(t0, target.artifacts, objects, sha)
            ==> !reply.state.Ambiguous?
  {
    if !BeforeApply(reply.stage) && allFaults <= 1 && (target.artifacts != [] || target.id in snapshots) {
      if Welcomes(t0, target.artifacts) && Roomy(t0, target.artifacts, objects, sha) {
        OneFailureIsSafe(reply.stage, reply.state, rollbackFaults, allFaults, t0, t, target, snapshots, objects, sha, temps, left);
      }
    }
  }

  // handleAdminConfigVaultRestore after its request checks.
  method Restore(h: Host, targetId: string)
    returns (reply: Reply, ghost rollbackFaults: nat, ghost target: Manifest, ghost temps: set<Path>, ghost left: set<Path>)
    requires h.Valid()
    modifies h`tree, h`snapshots, h`objects, h`faults
    ensures h.Valid() && h.faults >= old(h.faults)
    ensures h.lastWorking in old(h.snapshots) ==> h.lastWorking in h.snapshots
    ensures reply.stage == TargetCheck && h.faults == old(h.faults) ==>
              targetId !in old(h.snapshots) || !ValidManifest(old(h.snapshots)[targetId])
    ensures reply.stage != TargetCheck ==>
              targetId in old(h.snapshots) && target == old(h.snapshots)[targetId] && ValidManifest(target) && Terminal(reply.state)
    ensures Outcome(reply, rollbackFaults, old(h.tree), h.tree, target, h.objects, h.sha, temps, left)
    ensures reply.stage == Done ==> targetId in h.snapshots
    ensures !BeforeApply(reply.stage) ==>
              && Counted(reply.stage, rollbackFaults, h.faults - old(h.faults), old(h.tree), target, h.snapshots, temps)
              && Readable(target, h.snapshots, h.objects, h.sha)
    // At most one failing call, wherever it is, leaves no doubt.
    ensures h.faults - old(h.faults) <= 1 && (target.artifacts != [] || targetId in h.snapshots)
            && Welcomes(old(h.tree), target.artifacts) && Roomy(old(h.tree), target.artifacts, h.objects, h.sha)
            ==> !reply.state.Ambiguous?
    ensures h.faults == old(h.faults) ==> OutcomeExactly(reply, old(h.tree), target, h.snapshots, h.objects, h.sha)
    // And told from the start.
    ensures h.faults == old(h.faults) && reply.stage != TargetCheck ==>
              EndFromStart(reply, old(h.tree), target, targetId in h.snapshots, old(h.objects), h.artifactId, h.sha)
  {
    ghost var t0, faults0 := h.tree, h.faults;
    rollbackFaults, temps, left := 0, {}, {};
    target := Manifest(0, "", "", 0, []);
    reply := Reply(TargetCheck, Precheck, false);
    var got := FindTarget(h, targetId);
    if got.None? { return; }
    target := got.value;
    reply, rollbackFaults, temps, left := Transact(h, got.value);
    Unambiguous(reply, rollbackFaults, h.faults - faults0, t0, h.tree, target, h.snapshots, h.objects, h.sha, temps, left);
  }

  // ---- a tree with no way back ---------------------------------------------

  function Xs(n: nat): string { seq(n, _ => 'x') }

  // The file named by n + 1 letters.
  function NthPath(n: nat): Path { [Xs(n + 1)] }

  function Paths(lo: nat, hi: nat): set<Path> { set n | lo <= n < hi :: NthPath(n) }

  lemma NthPathIsRestorable(n: nat)
    ensures Restorable(NthPath(n)) && Parent(NthPath(n)) == []
  {
    var name := Xs(n + 1);
    assert name[0] == 'x' && !IsSpace(name[n]);
    assert '/' !in name;
    assert TrimRight(name) == name;
  }

  lemma NthPathsDiffer(m: nat, n: nat)
    requires m != n
    ensures NthPath(m) != NthPath(n)
  {
    assert |NthPath(m)[0]| != |NthPath(n)[0]|;
  }

  lemma {:induction false} PathsCount(lo: nat, hi: nat)
    requires lo <= hi
    ensures |Paths(lo, hi)| == hi - lo
    decreases hi
  {
    if lo == hi {
      assert Paths(lo, hi) == {};
    } else {
      PathsCount(lo, hi - 1);
      var last := NthPath(hi - 1);
      assert Paths(lo, hi) == Paths(lo, hi - 1) + {last};
      forall n | lo <= n < hi - 1 ensures NthPath(n) != last { NthPathsDiffer(n, hi - 1); }
      assert last !in Paths(lo, hi - 1);
    }
  }

  const OLD_COUNT: nat := 65
  const NEW_COUNT: nat := 64

  // So many files below the root.
  function Crowd(count: nat): Tree {
    map p | p in Paths(0, count) + {[]} :: if p == [] then Dir else File([])
  }

  function CrowdedTree(): Tree { Crowd(OLD_COUNT) }

  function CrowdArtifact(i: nat, sha: Bytes -> Digest): Artifact { Artifact(Xs(i + 1), NthPath(OLD_COUNT + i), sha([]), 0) }

  // 64 other files.
  function CrowdTarget(id: string, sha: Bytes -> Digest): Manifest {
    Manifest(SCHEMA_VERSION, id, "admin", 0, seq(NEW_COUNT, i requires 0 <= i => CrowdArtifact(i, sha)))
  }

  lemma CrowdIsFine(count: nat)
    requires count <= MAX_FILES
    ensures WellFormed(Crowd(count)) && Discoverable(Crowd(count)) && AllTidy(Crowd(count))
    ensures Files(Crowd(count)).Keys == Paths(0, count)
  {
    var t := Crowd(count);
    forall p | p in Paths(0, count) ensures p != [] && Restorable(p) && Parent(p) == [] {
      var n: nat :| n < count && p == NthPath(n);
      NthPathIsRestorable(n);
    }
    PathsCount(0, count);
    assert Files(t).Keys == Paths(0, count);
  }

  lemma CrowdTargetIsValid(id: string, sha: Bytes -> Digest)
    ensures var m := CrowdTarget(id, sha);
      ValidManifest(m) && Readable(m, map[id := m], map[sha([]) := []], sha)
    ensures PathsOf(CrowdTarget(id, sha).artifacts) == Paths(OLD_COUNT, OLD_COUNT + NEW_COUNT)
  {
    var m := CrowdTarget(id, sha);
    forall a | a in m.artifacts ensures Restorable(a.path) && Intact(a, map[sha([]) := []], sha) {
      var i: nat :| i < NEW_COUNT && a == CrowdArtifact(i, sha);
      NthPathIsRestorable(OLD_COUNT + i);
    }
    forall i, j | 0 <= i < j < NEW_COUNT ensures m.artifacts[i].id != m.artifacts[j].id && m.artifacts[i].path != m.artifacts[j].path {
      assert |Xs(i + 1)| != |Xs(j + 1)|;
      NthPathsDiffer(OLD_COUNT + i, OLD_COUNT + j);
    }
    forall p | p in Paths(OLD_COUNT, OLD_COUNT + NEW_COUNT) ensures p in PathsOf(m.artifacts) {
      var n: nat :| OLD_COUNT <= n < OLD_COUNT + NEW_COUNT && p == NthPath(n);
      assert m.artifacts[n - OLD_COUNT].path == p;
    }
  }

  lemma CrowdIsPlaceable(id: string, sha: Bytes -> Digest)
    ensures Placeable(CrowdedTree(), CrowdTarget(id, sha).artifacts)
    ensures Reach(CrowdedTree(), CrowdTarget(id, sha).artifacts) == Paths(OLD_COUNT, OLD_COUNT + NEW_COUNT)
  {
    var t, arts := CrowdedTree(), CrowdTarget(id, sha).artifacts;
    CrowdTargetIsValid(id, sha);
    forall a | a in arts ensures Clear(t, a.path) && |a.path| == 1 {
      var i: nat :| i < NEW_COUNT && a == CrowdArtifact(i, sha);
      NthPathIsRestorable(OLD_COUNT + i);
      forall n: nat | n < OLD_COUNT ensures NthPath(n) != a.path { NthPathsDiffer(n, OLD_COUNT + i); }
      assert a.path !in t;
    }
    SortedArtifacts(arts);
    PlaceableIsReached(t, arts, Sort(arts, ArtifactBefore));
  }

  // Both the old files and the target's are well below the limit of 128; their
  // 129 together are above it. When no call fails, a restore that gets to its
  // apply writes everything, cannot list the files any more, and cannot roll
  // back either.
  lemma NoWayBack(id: string, sha: Bytes -> Digest, stage: Stage, state: State, snapshots: map<string, Manifest>,
                  objects: map<Digest, Bytes>)
    ensures WellFormed(CrowdedTree()) && Discoverable(CrowdedTree()) && AllTidy(CrowdedTree())
    ensures ValidManifest(CrowdTarget(id, sha)) && Placeable(CrowdedTree(), CrowdTarget(id, sha).artifacts)
    ensures !Returnable(CrowdedTree(), Reach(CrowdedTree(), CrowdTarget(id, sha).artifacts), objects, sha)
    ensures EndedExactly(stage, state, CrowdedTree(), CrowdTarget(id, sha), snapshots, objects, sha) ==> stage != Done && !state.RolledBack?
  {
    var t, arts := CrowdedTree(), CrowdTarget(id, sha).artifacts;
    CrowdIsFine(OLD_COUNT);
    CrowdTargetIsValid(id, sha);
    CrowdIsPlaceable(id, sha);
    PathsCount(0, OLD_COUNT + NEW_COUNT);
    var all := Paths(0, OLD_COUNT + NEW_COUNT);
    assert all == Paths(0, OLD_COUNT) + Paths(OLD_COUNT, OLD_COUNT + NEW_COUNT);
    assert Files(t).Keys + PathsOf(arts) == all;
  }

  // 128 files, and a snapshot of one of them.
  function FullTree(): Tree { Crowd(MAX_FILES) }

  function FullTarget(id: string, sha: Bytes -> Digest): Manifest {
    Manifest(SCHEMA_VERSION, id, "admin", 0, [Artifact("x", NthPath(0), sha([]), 0)])
  }

  // What one failing write of that file may leave in the full tree.
  function WithTemp(suffix: string): Tree { FullTree()[[TempName(Xs(1), suffix)] := File([])] }

  lemma OwnFileIsWelcome(t: Tree, a: Artifact)
    requires WellFormed(t) && Discoverable(t) && FileAt(t, a.path) && Restorable(a.path)
    ensures Welcomes(t, [a]) && Files(t).Keys + PathsOf([a]) == Files(t).Keys
  {
    FileIsClear(t, t, a.path);
    assert PathsOf([a]) == {a.path};
    assert Files(t).Keys + {a.path} == Files(t).Keys;
  }

  // A leftover in any full tree is one file too many for a rollback.
  lemma LeftoverIsTooMany(t0: Tree, temp: Path, content: Bytes, objects: map<Digest, Bytes>, sha: Bytes -> Digest)
    requires |Files(t0).Keys| == MAX_FILES && temp != [] && temp !in t0
    ensures KeepsShape(t0, t0[temp := File(content)])
    ensures !Returnable(t0, Files(t0[temp := File(content)]).Keys, objects, sha)
  {
    var t := t0[temp := File(content)];
    WritingFile(t0, temp, content);
    assert Files(t).Keys == Files(t0).Keys + {temp};
    assert Files(t0).Keys + Files(t).Keys == Files(t0).Keys + {temp};
    assert |Files(t0).Keys + {temp}| == MAX_FILES + 1;
  }

  lemma FullTreeIsFull()
    ensures WellFormed(FullTree()) && Discoverable(FullTree()) && AllTidy(FullTree()) && |Files(FullTree()).Keys| == MAX_FILES
    ensures FileAt(FullTree(), NthPath(0)) && Restorable(NthPath(0))
  {
    CrowdIsFine(MAX_FILES);
    PathsCount(0, MAX_FILES);
    NthPathIsRestorable(0);
    assert NthPath(0) in Paths(0, MAX_FILES);
    assert NthPath(0) in Files(FullTree());
  }

  lemma TempIsNew(suffix: string)
    ensures [TempName(Xs(1), suffix)] !in FullTree()
  {
    var temp: Path := [TempName(Xs(1), suffix)];
    forall n: nat | n < MAX_FILES ensures NthPath(n) != temp { assert NthPath(n)[0][0] == 'x' && temp[0][0] == '.'; }
  }

  // The room is needed: the target is welcome, one write fails and leaves its
  // temporary file, and there is no way back.
  lemma OneLeftoverIsTooMany(id: string, sha: Bytes -> Digest, suffix: string, objects: map<Digest, Bytes>)
    ensures AllTidy(FullTree()) && Discoverable(FullTree())
    ensures ValidManifest(FullTarget(id, sha)) && Welcomes(FullTree(), FullTarget(id, sha).artifacts)
    ensures KeepsShape(FullTree(), WithTemp(suffix)) && !Returnable(FullTree(), Files(WithTemp(suffix)).Keys, objects, sha)
  {
    FullTreeIsFull();
    OwnFileIsWelcome(FullTree(), FullTarget(id, sha).artifacts[0]);
    TempIsNew(suffix);
    LeftoverIsTooMany(FullTree(), [TempName(Xs(1), suffix)], [], objects, sha);
  }
}
