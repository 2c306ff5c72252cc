// Applying a snapshot to the managed tree: validation, the write loop with its
// missing parents, and the remove loop.

module VaultApply {
  import opened ManagedTree
  import opened VaultHost
  import opened ConfigVault
  import opened Orders
  import opened Text
  import opened Wrappers

  predicate ArtifactBefore(a: Artifact, b: Artifact) { PathBefore(a.path, b.path) }

  // ---- how a tree may change -----------------------------------------------

  predicate SameKind(m: Node, n: Node) { m.Dir? == n.Dir? && m.File? == n.File? }

  // Nothing disappears or changes kind; the root does not come into being.
  ghost predicate Grows(t0: Tree, t: Tree) {
    (forall p :: p in t0 ==> p in t && SameKind(t0[p], t[p])) && ([] in t ==> [] in t0)
  }

  // Only regular files disappear.
  ghost predicate Shrinks(t0: Tree, t: Tree) {
    && (forall p :: p in t ==> p in t0 && t[p] == t0[p])
    && (forall p :: p in t0 && !t0[p].File? ==> p in t)
  }

  lemma GrowThenShrink(t0: Tree, t1: Tree, t2: Tree)
    requires Grows(t0, t1) && Shrinks(t1, t2)
    ensures KeepsShape(t0, t2)
  {
  }

  lemma GrowsTransitive(t0: Tree, t1: Tree, t2: Tree)
    requires Grows(t0, t1) && Grows(t1, t2)
    ensures Grows(t0, t2)
  {
  }

  ghost predicate DirsAdded(t0: Tree, t: Tree) {
    && (forall p :: p in t0 ==> p in t && t[p] == t0[p])
    && (forall p :: p in t && p !in t0 ==> t[p].Dir? && p != [])
  }

  lemma AddingDirs(t0: Tree, t: Tree)
    requires DirsAdded(t0, t)
    ensures Grows(t0, t) && Files(t) == Files(t0)
  {
  }

  lemma WritingFile(t: Tree, p: Path, content: Bytes)
    requires p != [] && (p in t ==> t[p].File?)
    ensures Grows(t, t[p := File(content)]) && Files(t[p := File(content)]) == Files(t)[p := content]
  {
  }

  lemma LeavingFiles(t0: Tree, t: Tree, left: set<Path>)
    requires t.Keys == t0.Keys + left && [] !in left
    requires forall p :: p in left ==> p !in t0 && FileAt(t, p)
    requires forall p :: p in t0 ==> t[p] == t0[p]
    ensures Grows(t0, t) && Files(t).Keys == Files(t0).Keys + left
    ensures forall p :: p in Files(t0) ==> Files(t)[p] == Files(t0)[p]
  {
  }

  // f is f0 with the artifacts written over it.
  ghost predicate Overlaid(f0: map<Path, Bytes>, f: map<Path, Bytes>, arts: seq<Artifact>, objects: map<Digest, Bytes>) {
    && f.Keys == f0.Keys + PathsOf(arts)
    && (forall a :: a in arts ==> a.sha in objects && f[a.path] == objects[a.sha])
    && (forall p :: p in f0 && p !in PathsOf(arts) ==> f[p] == f0[p])
  }

  lemma OverlayNext(f0: map<Path, Bytes>, f: map<Path, Bytes>, arts: seq<Artifact>, a: Artifact, objects: map<Digest, Bytes>)
    requires Overlaid(f0, f, arts, objects) && a.sha in objects && a.path !in PathsOf(arts)
    ensures Overlaid(f0, f[a.path := objects[a.sha]], arts + [a], objects)
  {
    assert PathsOf(arts + [a]) == PathsOf(arts) + {a.path};
    forall b | b in arts ensures b.path != a.path { assert b.path in PathsOf(arts); }
  }

  // Every file is one that was there before, a whole snapshot file, or the
  // temporary file of a failed write: no file is ever torn.
  ghost predicate Mixed(f0: map<Path, Bytes>, f: map<Path, Bytes>, arts: seq<Artifact>, sha: Bytes -> Digest, left: set<Path>) {
    forall p :: p in f && p !in left ==> FromSnapshot(p, f[p], arts, sha) || (p in f0 && f[p] == f0[p])
  }

  ghost predicate FromSnapshot(p: Path, content: Bytes, arts: seq<Artifact>, sha: Bytes -> Digest) {
    exists a :: a in arts && a.path == p && a.sha == sha(content)
  }

  // ---- validation ----------------------------------------------------------

  // Strictly below the root, with plain names and no white space at the end.
  predicate CleanPath(p: Path) {
    && p != [] && (forall i :: 0 <= i < |p| ==> p[i] != "" && p[i] != "." && p[i] != ".." && '/' !in p[i])
    && !IsSpace(p[|p| - 1][|p[|p| - 1]| - 1])
  }

  lemma CleanIsRestorable(p: Path)
    ensures CleanPath(p) <==> Restorable(p)
  {
    if p != [] {
      TrimRightGoes(Base(p));
      assert Plain(p) ==> PlainName(p[|p| - 1]);
    }
  }

  // What the loop has found so far.
  ghost predicate Accepted(arts: seq<Artifact>) {
    UniqueIds(arts) && UniquePaths(arts) && forall a :: a in arts ==> a.id != "" && Restorable(a.path)
  }

  lemma OneMore(arts: seq<Artifact>, a: Artifact)
    ensures IdsOf(arts + [a]) == IdsOf(arts) + {a.id} && PathsOf(arts + [a]) == PathsOf(arts) + {a.path}
  {
    assert forall b :: b in arts + [a] <==> b in arts || b == a;
  }

  lemma RepeatsId(arts: seq<Artifact>, a: Artifact)
    requires a.id in IdsOf(arts)
    ensures !UniqueIds(arts + [a])
  {
    var b :| b in arts && b.id == a.id;
    var i :| 0 <= i < |arts| && arts[i] == b;
    assert (arts + [a])[i] == b && (arts + [a])[|arts|] == a;
  }

  lemma RepeatsPath(arts: seq<Artifact>, a: Artifact)
    requires a.path in PathsOf(arts)
    ensures !UniquePaths(arts + [a])
  {
    var b :| b in arts && b.path == a.path;
    var i :| 0 <= i < |arts| && arts[i] == b;
    assert (arts + [a])[i] == b && (arts + [a])[|arts|] == a;
  }

  lemma AcceptedNext(arts: seq<Artifact>, a: Artifact)
    requires Accepted(arts) && a.id != "" && Restorable(a.path) && a.id !in IdsOf(arts) && a.path !in PathsOf(arts)
    ensures Accepted(arts + [a])
  {
    forall i | 0 <= i < |arts| ensures arts[i].id != a.id && arts[i].path != a.path {
      assert arts[i] in arts;
      assert arts[i].id in IdsOf(arts) && arts[i].path in PathsOf(arts);
    }
  }

  lemma AcceptedPart(arts: seq<Artifact>, i: nat)
    requires i <= |arts| && Accepted(arts)
    ensures Accepted(arts[..i])
  {
    assert forall a :: a in arts[..i] ==> a in arts;
  }

  method ValidateManifest(m: Manifest) returns (ok: bool)
    ensures ok <==> ValidManifest(m)
    ensures ok <==>
      && m.schema == 1 && m.component == "admin" && |m.artifacts| <= 128
      && (forall k :: 0 <= k < |m.artifacts| ==> m.artifacts[k].id != "" && CleanPath(m.artifacts[k].path))
      && forall i, j :: 0 <= i < j < |m.artifacts| ==>
           m.artifacts[i].id != m.artifacts[j].id && m.artifacts[i].path != m.artifacts[j].path
  {
    forall k | 0 <= k < |m.artifacts| ensures CleanPath(m.artifacts[k].path) <==> Restorable(m.artifacts[k].path) {
      CleanIsRestorable(m.artifacts[k].path);
    }
    if m.schema != SCHEMA_VERSION || m.component != "admin" || |m.artifacts| > MAX_FILES { return false; }
    var paths: set<Path> := {};
    var ids: set<string> := {};
    for i := 0 to |m.artifacts|
      invariant ids == IdsOf(m.artifacts[..i]) && paths == PathsOf(m.artifacts[..i]) && Accepted(m.artifacts[..i])
    {
      var a := m.artifacts[i];
      assert m.artifacts[..i + 1] == m.artifacts[..i] + [a];
      assert a in m.artifacts;
      OneMore(m.artifacts[..i], a);
      if Accepted(m.artifacts) { AcceptedPart(m.artifacts, i + 1); }
      if a.id == "" { return false; }
      if a.id in ids {
        RepeatsId(m.artifacts[..i], a);
        return false;
      }
      ids := ids + {a.id};
      if !Restorable(a.path) { return false; }
      if a.path in paths {
        RepeatsPath(m.artifacts[..i], a);
        return false;
      }
      paths := paths + {a.path};
      AcceptedNext(m.artifacts[..i], a);
    }
    assert m.artifacts[..|m.artifacts|] == m.artifacts;
    ok := true;
  }

  // The artifact that the store returns for an id is the manifest's own.
  ghost predicate StoreAgrees(h: Host, m: Manifest)
    reads h
  {
    m.id in h.snapshots ==> h.snapshots[m.id] == m
  }

  lemma SameId(arts: seq<Artifact>, a: Artifact, b: Artifact)
    requires UniqueIds(arts) && a in arts && b in arts && a.id == b.id
    ensures a == b
  {
    var i :| 0 <= i < |arts| && arts[i] == a;
    var j :| 0 <= j < |arts| && arts[j] == b;
    assert !(i < j) && !(j < i);
  }

  // Every object can be read.
  ghost predicate Readable(m: Manifest, snapshots: map<string, Manifest>, objects: map<Digest, Bytes>, sha: Bytes -> Digest) {
    (m.artifacts != [] ==> m.id in snapshots) && forall a :: a in m.artifacts ==> Intact(a, objects, sha)
  }

  // Record and object of one artifact; the record found is the artifact itself.
  method ReadOwn(h: Host, m: Manifest, a: Artifact) returns (content: Option<Bytes>)
    requires h.Valid() && StoreAgrees(h, m) && UniqueIds(m.artifacts) && a in m.artifacts
    modifies h`faults
    ensures h.faults >= old(h.faults)
    ensures content.Some? ==> m.id in h.snapshots && Intact(a, h.objects, h.sha) && content.value == h.objects[a.sha]
    ensures content.None? ==> h.faults > old(h.faults) || m.id !in h.snapshots || !Intact(a, h.objects, h.sha)
  {
    var read := h.ReadArtifact(m.id, a.id);
    if read.None? { return None; }
    SameId(m.artifacts, a, read.value.0);
    content := Some(read.value.1);
  }

  method ValidateContent(h: Host, m: Manifest) returns (ok: bool)
    requires h.Valid() && StoreAgrees(h, m)
    modifies h`faults
    ensures h.faults >= old(h.faults)
    ensures ok ==> ValidManifest(m) && Readable(m, h.snapshots, h.objects, h.sha)
    ensures !ok ==> h.faults > old(h.faults) || !ValidManifest(m) || !Readable(m, h.snapshots, h.objects, h.sha)
  {
    var valid := ValidateManifest(m);
    if !valid { return false; }
    for i := 0 to |m.artifacts|
      invariant h.faults >= old(h.faults)
      invariant i > 0 ==> m.id in h.snapshots
      invariant forall k :: 0 <= k < i ==> Intact(m.artifacts[k], h.objects, h.sha)
    {
      var a := m.artifacts[i];
      assert a in m.artifacts;
      var content := ReadOwn(h, m, a);
      if content.None? || |content.value| != a.size { return false; }
    }
    ok := true;
  }

  // ---- parents -------------------------------------------------------------

  // The root and whatever there is above p are directories.
  ghost predicate Passable(t: Tree, p: Path) { DirAt(t, []) && forall q :: q in t && q < p ==> t[q].Dir? }

  // Nothing in the tree stands in the way of writing p.
  ghost predicate Clear(t: Tree, p: Path) { Restorable(p) && Passable(t, p) && (p in t ==> t[p].File?) }

  // The tree once the first n levels of p are there.
  function WithDirs(t: Tree, p: Path, n: nat): Tree
    requires n <= |p|
  {
    if n == 0 then t
    else
      var u := WithDirs(t, p, n - 1);
      if p[..n] in u then u else u[p[..n] := Dir]
  }

  function WithParents(t: Tree, p: Path): Tree
    requires p != []
  {
    WithDirs(t, p, |p| - 1)
  }

  function Placed(t: Tree, p: Path, content: Bytes): Tree
    requires p != []
  {
    WithParents(t, p)[p := File(content)]
  }

  lemma {:induction false} DirsThere(t: Tree, p: Path, n: nat)
    requires n <= |p|
    ensures var u := WithDirs(t, p, n);
      && DirsAdded(t, u)
      && (forall q :: q in u <==> q in t || (q != [] && |q| <= n && q <= p))
  {
    if n > 0 {
      DirsThere(t, p, n - 1);
      var u := WithDirs(t, p, n - 1);
      forall q | |q| == n && q <= p ensures q == p[..n] {}
      assert p[..n] <= p && |p[..n]| == n;
    }
  }

  // t2 is t with r written as a file and directories put above it.
  ghost predicate PutAt(t: Tree, t2: Tree, r: Path) {
    && (forall q :: q in t2 <==> q in t || q == r || (q != [] && q < r))
    && (forall q :: q in t2 && q != r ==> t2[q] == if q in t then t[q] else Dir)
    && r in t2 && t2[r].File?
  }

  lemma PlacedIsPutAt(t: Tree, r: Path, content: Bytes)
    requires r != []
    ensures PutAt(t, Placed(t, r, content), r)
  {
    DirsThere(t, r, |r| - 1);
    forall q ensures q < r <==> |q| <= |r| - 1 && q <= r {}
  }

  lemma StillClear(t: Tree, t2: Tree, r: Path, p: Path)
    requires PutAt(t, t2, r) && Clear(t, r) && Clear(t, p) && !(r < p) && !(p < r)
    ensures Clear(t2, p)
  {
  }

  lemma WasClear(t: Tree, t2: Tree, r: Path, p: Path)
    requires PutAt(t, t2, r) && Clear(t, r) && Clear(t2, p)
    ensures Clear(t, p) && !(r < p) && !(p < r)
  {
  }

  // Writing r takes away exactly the paths above and below it.
  lemma PlacedClear(t: Tree, r: Path, content: Bytes, p: Path)
    requires Clear(t, r)
    ensures Clear(Placed(t, r, content), p) <==> Clear(t, p) && !(r < p) && !(p < r)
  {
    PlacedIsPutAt(t, r, content);
    if Clear(Placed(t, r, content), p) {
      WasClear(t, Placed(t, r, content), r, p);
    } else if Clear(t, p) && !(r < p) && !(p < r) {
      StillClear(t, Placed(t, r, content), r, p);
    }
  }

  // One level of ensureAdminConfigVaultParent.
  method EnsureDir(h: Host, p: Path) returns (ok: bool)
    requires h.Valid() && p != [] && Plain(p) && DirAt(h.tree, Parent(p))
    modifies h`tree, h`faults
    ensures h.Valid() && h.faults >= old(h.faults) && DirsAdded(old(h.tree), h.tree)
    ensures ok ==> DirAt(h.tree, p) && h.tree == if p in old(h.tree) then old(h.tree) else old(h.tree)[p := Dir]
    ensures !ok ==> h.faults > old(h.faults) || (p in old(h.tree) && !old(h.tree)[p].Dir?)
  {
    var info := h.Lstat(p);
    if info.Absent? {
      var made := h.Mkdir(p);
      if !made { return false; }
      info := h.Lstat(p);
    }
    ok := info.Present? && info.node.Dir?;
  }

  // The first n levels of p are directories wherever they are.
  ghost predicate DirsTo(t: Tree, p: Path, n: nat)
    requires n <= |p|
  {
    forall i :: 0 <= i <= n && p[..i] in t ==> t[p[..i]].Dir?
  }

  lemma DirsToParent(t: Tree, p: Path)
    requires p != [] && DirAt(t, [])
    ensures DirsTo(t, p, |p| - 1) <==> Passable(t, p)
  {
    forall q | q in t && q < p ensures q == p[..|q|] {}
    forall i | 0 <= i < |p| ensures p[..i] < p {}
  }

  lemma DirsNext(t: Tree, p: Path, n: nat)
    requires 0 < n < |p| && DirsTo(t, p, n - 1)
    ensures p[..n] in WithDirs(t, p, n - 1) <==> p[..n] in t
    ensures p[..n] in t ==> WithDirs(t, p, n - 1)[p[..n]] == t[p[..n]]
    ensures DirsTo(t, p, n) <==> (p[..n] in t ==> t[p[..n]].Dir?)
    ensures !DirsTo(t, p, n) ==> !Passable(t, p)
    ensures DirsAdded(t, WithDirs(t, p, n - 1))
  {
    DirsThere(t, p, n - 1);
    assert p[..n] < p;
  }

  lemma AddedThenAdded(t0: Tree, t1: Tree, t2: Tree)
    requires DirsAdded(t0, t1) && DirsAdded(t1, t2)
    ensures DirsAdded(t0, t2)
  {
  }

  // ensureAdminConfigVaultParent makes missing parents, one level at a time.
  method EnsureParent(h: Host, p: Path) returns (ok: bool)
    requires h.Valid()
    modifies h`tree, h`faults
    ensures h.Valid() && h.faults >= old(h.faults) && DirsAdded(old(h.tree), h.tree)
    ensures ok ==> Restorable(p) && Passable(old(h.tree), p) && DirAt(h.tree, Parent(p)) && h.tree == WithParents(old(h.tree), p)
    ensures !ok ==> h.faults > old(h.faults) || !Restorable(p) || !Passable(old(h.tree), p)
  {
    if !Restorable(p) { return false; }
    ghost var t0 := h.tree;
    var root := h.Lstat([]);
    assert p[..0] == [] < p;
    if !root.Present? || !root.node.Dir? { return false; }
    for i := 1 to |p|
      invariant h.Valid() && h.faults >= old(h.faults)
      invariant h.tree == WithDirs(t0, p, i - 1) && DirAt(h.tree, p[..i - 1]) && DirsTo(t0, p, i - 1)
    {
      assert Parent(p[..i]) == p[..i - 1];
      ghost var t := h.tree;
      DirsNext(t0, p, i);
      var there := EnsureDir(h, p[..i]);
      AddedThenAdded(t0, t, h.tree);
      if !there { return false; }
    }
    DirsThere(t0, p, |p| - 1);
    DirsToParent(t0, p);
    ok := true;
  }

  // ---- one file ------------------------------------------------------------

  // What one failed write may change.
  ghost predicate Untouched(t0: Tree, t: Tree, left: set<Path>) {
    && |left| <= 1 && Files(t).Keys == Files(t0).Keys + left
    && forall p :: p in Files(t0) ==> Files(t)[p] == Files(t0)[p]
  }

  // Refuse to replace anything but a regular file.
  method WriteOne(h: Host, p: Path, content: Bytes) returns (ok: bool, ghost left: set<Path>)
    requires h.Valid() && p != [] && Plain(p) && DirAt(h.tree, Parent(p))
    modifies h`tree, h`faults
    ensures h.Valid() && h.faults >= old(h.faults) && Grows(old(h.tree), h.tree)
    ensures ok ==> left == {} && (p in old(h.tree) ==> old(h.tree)[p].File?) && h.tree == old(h.tree)[p := File(content)]
    ensures !ok ==> Untouched(old(h.tree), h.tree, left)
    ensures !ok ==> h.faults > old(h.faults) || (left == {} && p in old(h.tree) && !old(h.tree)[p].File?)
  {
    left := {};
    var info := h.Lstat(p);
    if info.Unreadable? || (info.Present? && !info.node.File?) { return false, {}; }
    ghost var t0 := h.tree;
    ok, left := h.WriteFileAtomic(p, content);
    if ok {
      WritingFile(t0, p, content);
    } else {
      assert [] !in left by { if [] !in t0 { NothingBelowMissingRoot(t0); } }
      LeavingFiles(t0, h.tree, left);
    }
  }

  lemma PlacedGrows(t: Tree, p: Path, content: Bytes)
    requires p != [] && (p in t ==> t[p].File?)
    ensures Grows(t, Placed(t, p, content)) && Files(Placed(t, p, content)) == Files(t)[p := content]
  {
    DirsThere(t, p, |p| - 1);
    var u := WithParents(t, p);
    AddingDirs(t, u);
    WritingFile(u, p, content);
    GrowsTransitive(t, u, Placed(t, p, content));
  }

  lemma DirsThenUntouched(t0: Tree, t1: Tree, t2: Tree, left: set<Path>)
    requires DirsAdded(t0, t1) && Grows(t1, t2) && Untouched(t1, t2, left)
    ensures Grows(t0, t2) && Untouched(t0, t2, left)
  {
    AddingDirs(t0, t1);
    GrowsTransitive(t0, t1, t2);
  }

  lemma DirsOnly(t0: Tree, t1: Tree)
    requires DirsAdded(t0, t1)
    ensures Grows(t0, t1) && Untouched(t0, t1, {})
  {
    AddingDirs(t0, t1);
  }

  // Make the parents, then write.
  method Place(h: Host, p: Path, content: Bytes) returns (ok: bool, ghost left: set<Path>)
    requires h.Valid()
    modifies h`tree, h`faults
    ensures h.Valid() && h.faults >= old(h.faults) && Grows(old(h.tree), h.tree)
    ensures ok ==> left == {} && Clear(old(h.tree), p) && h.tree == Placed(old(h.tree), p, content)
    ensures !ok ==> Untouched(old(h.tree), h.tree, left)
    ensures !ok ==> h.faults > old(h.faults) || (left == {} && !Clear(old(h.tree), p))
  {
    ghost var t0 := h.tree;
    var parent := EnsureParent(h, p);
    ghost var t1 := h.tree;
    if !parent {
      DirsOnly(t0, t1);
      return false, {};
    }
    DirsThere(t0, p, |p| - 1);
    ok, left := WriteOne(h, p, content);
    if ok { PlacedGrows(t0, p, content); } else { DirsThenUntouched(t0, t1, h.tree, left); }
  }

  // One round of the write loop.
  method RestoreOne(h: Host, m: Manifest, a: Artifact) returns (ok: bool, ghost left: set<Path>)
    requires h.Valid() && StoreAgrees(h, m) && UniqueIds(m.artifacts) && a in m.artifacts
    modifies h`tree, h`faults
    ensures h.Valid() && h.faults >= old(h.faults) && Grows(old(h.tree), h.tree)
    ensures ok ==> left == {} && m.id in h.snapshots && Intact(a, h.objects, h.sha)
    ensures ok ==> Clear(old(h.tree), a.path) && h.tree == Placed(old(h.tree), a.path, h.objects[a.sha])
    ensures !ok ==> Untouched(old(h.tree), h.tree, left)
    ensures !ok ==>
              || h.faults > old(h.faults)
              || (left == {} && (m.id !in h.snapshots || !Intact(a, h.objects, h.sha) || !Clear(old(h.tree), a.path)))
  {
    var content := ReadOwn(h, m, a);
    if content.None? { return false, {}; }
    ok, left := Place(h, a.path, content.value);
  }

  // ---- the write loop ------------------------------------------------------

  // What stands in the way of p once the paths have been written.
  ghost predicate Free(t: Tree, paths: set<Path>, p: Path) {
    Clear(t, p) && forall q :: q in paths ==> !(q < p) && !(p < q)
  }

  ghost predicate Tracks(t0: Tree, t: Tree, paths: set<Path>) { forall p :: Clear(t, p) <==> Free(t0, paths, p) }

  lemma TracksNext(t0: Tree, t: Tree, paths: set<Path>, r: Path, content: Bytes)
    requires Tracks(t0, t, paths) && Clear(t, r)
    ensures Tracks(t0, Placed(t, r, content), paths + {r})
  {
    forall p ensures Clear(Placed(t, r, content), p) <==> Free(t0, paths + {r}, p) {
      PlacedClear(t, r, content, p);
      assert Clear(t, p) <==> Free(t0, paths, p);
    }
  }

  // The first k artifacts can be written one after the other.
  ghost predicate Open(t: Tree, arts: seq<Artifact>, k: nat) {
    k <= |arts| && forall i :: 0 <= i < k ==> Free(t, PathsOf(arts[..i]), arts[i].path)
  }

  ghost predicate StopsAt(t: Tree, arts: seq<Artifact>, k: nat) {
    Open(t, arts, k) && (k < |arts| ==> !Free(t, PathsOf(arts[..k]), arts[k].path))
  }

  // How many artifacts are written before the first obstructed one.
  ghost function Stop(t: Tree, arts: seq<Artifact>): (k: nat)
    ensures StopsAt(t, arts, k)
  {
    StopFrom(t, arts, 0)
  }

  ghost function StopFrom(t: Tree, arts: seq<Artifact>, i: nat): (k: nat)
    requires Open(t, arts, i)
    ensures StopsAt(t, arts, k)
    decreases |arts| - i
  {
    if i < |arts| && Free(t, PathsOf(arts[..i]), arts[i].path) then StopFrom(t, arts, i + 1) else i
  }

  lemma StopIsUnique(t: Tree, arts: seq<Artifact>, k: nat)
    requires StopsAt(t, arts, k)
    ensures k == Stop(t, arts)
  {
  }

  // Every path is free by itself, and none lies above another.
  ghost predicate Placeable(t: Tree, arts: seq<Artifact>) {
    && (forall a :: a in arts ==> Clear(t, a.path))
    && (forall a, b :: a in arts && b in arts ==> !(a.path < b.path))
  }

  lemma OpenIffPlaceable(t: Tree, arts: seq<Artifact>)
    ensures Open(t, arts, |arts|) <==> Placeable(t, arts)
  {
    if Open(t, arts, |arts|) {
      forall a, b | a in arts && b in arts ensures Clear(t, a.path) && !(a.path < b.path) {
        var i :| 0 <= i < |arts| && arts[i] == a;
        var j :| 0 <= j < |arts| && arts[j] == b;
        assert Free(t, PathsOf(arts[..i]), a.path) && Free(t, PathsOf(arts[..j]), b.path);
        if i < j {
          assert arts[..j][i] == a && a.path in PathsOf(arts[..j]);
        } else if j < i {
          assert arts[..i][j] == b && b.path in PathsOf(arts[..i]);
        }
      }
    }
  }

  // The state of the write loop after i artifacts.
  ghost predicate Written(t0: Tree, t: Tree, arts: seq<Artifact>, i: nat, objects: map<Digest, Bytes>, sha: Bytes -> Digest) {
    && i <= |arts| && Grows(t0, t) && Overlaid(Files(t0), Files(t), arts[..i], objects)
    && (forall a :: a in arts[..i] ==> Intact(a, objects, sha))
    && Tracks(t0, t, PathsOf(arts[..i])) && Open(t0, arts, i)
  }

  lemma FirstAndNext(arts: seq<Artifact>, i: nat)
    requires i < |arts|
    ensures arts[..i + 1] == arts[..i] + [arts[i]] && PathsOf(arts[..i + 1]) == PathsOf(arts[..i]) + {arts[i].path}
    ensures UniquePaths(arts) ==> arts[i].path !in PathsOf(arts[..i])
  {
    assert arts[..i + 1] == arts[..i] + [arts[i]];
    OneMore(arts[..i], arts[i]);
  }

  lemma WrittenNext(t0: Tree, t: Tree, t': Tree, arts: seq<Artifact>, i: nat, objects: map<Digest, Bytes>, sha: Bytes -> Digest)
    requires Written(t0, t, arts, i, objects, sha) && i < |arts| && UniquePaths(arts)
    requires Intact(arts[i], objects, sha) && Clear(t, arts[i].path) && t' == Placed(t, arts[i].path, objects[arts[i].sha])
    ensures Written(t0, t', arts, i + 1, objects, sha)
  {
    var content := objects[arts[i].sha];
    FirstAndNext(arts, i);
    PlacedGrows(t, arts[i].path, content);
    GrowsTransitive(t0, t, t');
    OverlayNext(Files(t0), Files(t), arts[..i], arts[i], objects);
    TracksNext(t0, t, PathsOf(arts[..i]), arts[i].path, content);
  }

  lemma WriteStopped(t0: Tree, t: Tree, t': Tree, arts: seq<Artifact>, i: nat, objects: map<Digest, Bytes>,
                     sha: Bytes -> Digest, left: set<Path>)
    requires Written(t0, t, arts, i, objects, sha) && Untouched(t, t', left) && Grows(t, t')
    ensures Grows(t0, t') && Mixed(Files(t0), Files(t'), arts, sha, left)
  {
    GrowsTransitive(t0, t, t');
    OverlaidIsMixed(Files(t0), Files(t), arts, i, objects, sha);
  }

  // Files and obstacle when the loop stops and no call has failed.
  ghost predicate Obstructed(t0: Tree, t: Tree, arts: seq<Artifact>) {
    Stop(t0, arts) < |arts| && Files(t).Keys == Files(t0).Keys + PathsOf(arts[..Stop(t0, arts)])
  }

  lemma ObstructedHere(t0: Tree, t: Tree, t': Tree, arts: seq<Artifact>, i: nat, objects: map<Digest, Bytes>, sha: Bytes -> Digest)
    requires Written(t0, t, arts, i, objects, sha) && Untouched(t, t', {}) && i < |arts| && !Clear(t, arts[i].path)
    ensures Obstructed(t0, t', arts)
  {
    StopIsUnique(t0, arts, i);
  }

  // The write loop.
  method WriteAll(h: Host, m: Manifest, arts: seq<Artifact>) returns (ok: bool, ghost left: set<Path>)
    requires h.Valid() && StoreAgrees(h, m) && UniqueIds(m.artifacts) && UniquePaths(arts)
    requires forall a :: a in arts ==> a in m.artifacts
    modifies h`tree, h`faults
    ensures h.Valid() && h.faults >= old(h.faults) && |left| <= 1
    ensures ok ==> left == {} && Written(old(h.tree), h.tree, arts, |arts|, h.objects, h.sha)
    ensures !ok ==> Grows(old(h.tree), h.tree) && Mixed(Files(old(h.tree)), Files(h.tree), arts, h.sha, left)
    ensures !ok ==>
              || h.faults > old(h.faults) || !Readable(m, h.snapshots, h.objects, h.sha)
              || (left == {} && Obstructed(old(h.tree), h.tree, arts))
  {
    ghost var t0 := h.tree;
    left := {};
    for i := 0 to |arts|
      invariant h.Valid() && h.faults >= old(h.faults)
      invariant Written(t0, h.tree, arts, i, h.objects, h.sha)
    {
      ghost var t := h.tree;
      ghost var before := h.faults;
      var restored;
      restored, left := RestoreOne(h, m, arts[i]);
      if !restored {
        WriteStopped(t0, t, h.tree, arts, i, h.objects, h.sha, left);
        if h.faults == before && Readable(m, h.snapshots, h.objects, h.sha) {
          ObstructedHere(t0, t, h.tree, arts, i, h.objects, h.sha);
        }
        return false, left;
      }
      WrittenNext(t0, t, h.tree, arts, i, h.objects, h.sha);
    }
    return true, {};
  }

  lemma OverlaidIsMixed(f0: map<Path, Bytes>, f: map<Path, Bytes>, arts: seq<Artifact>, i: nat,
                        objects: map<Digest, Bytes>, sha: Bytes -> Digest)
    requires i <= |arts| && Overlaid(f0, f, arts[..i], objects)
    requires forall a :: a in arts[..i] ==> Intact(a, objects, sha)
    ensures Mixed(f0, f, arts, sha, {})
  {
    forall p | p in f && !(p in f0 && f[p] == f0[p]) ensures FromSnapshot(p, f[p], arts, sha) {
      var a :| a in arts[..i] && a.path == p;
      assert a in arts;
    }
  }

  ghost predicate SameArtifacts(s: seq<Artifact>, arts: seq<Artifact>) {
    UniquePaths(s) && PathsOf(s) == PathsOf(arts) && forall a :: a in s <==> a in arts
  }

  lemma SortedArtifacts(arts: seq<Artifact>)
    requires UniqueIds(arts) && UniquePaths(arts)
    ensures SameArtifacts(Sort(arts, ArtifactBefore), arts)
  {
    SortKeeps(arts, ArtifactBefore);
    SortUnique(arts, ArtifactBefore);
  }

  // The paths that are written when no call fails: in path order, up to the
  // first one with something in its way.
  ghost function Reach(t: Tree, arts: seq<Artifact>): set<Path> {
    var s := Sort(arts, ArtifactBefore);
    PathsOf(s[..Stop(t, s)])
  }

  lemma PlaceableIsReached(t: Tree, arts: seq<Artifact>, s: seq<Artifact>)
    requires SameArtifacts(s, arts) && s == Sort(arts, ArtifactBefore)
    ensures Placeable(t, arts) <==> Stop(t, s) == |s|
    ensures Placeable(t, arts) ==> Reach(t, arts) == PathsOf(arts)
  {
    OpenIffPlaceable(t, s);
    assert Placeable(t, s) <==> Placeable(t, arts);
    if Placeable(t, arts) {
      StopIsUnique(t, s, |s|);
      assert s[..|s|] == s;
    }
  }

  // The write loop takes the artifacts in path order.
  method WriteSnapshot(h: Host, m: Manifest) returns (ok: bool, ghost left: set<Path>)
    requires h.Valid() && StoreAgrees(h, m) && ValidManifest(m)
    modifies h`tree, h`faults
    ensures h.Valid() && h.faults >= old(h.faults) && |left| <= 1 && Grows(old(h.tree), h.tree)
    ensures ok ==> left == {} && Overlaid(Files(old(h.tree)), Files(h.tree), m.artifacts, h.objects)
    ensures ok ==> Placeable(old(h.tree), m.artifacts)
    ensures Mixed(Files(old(h.tree)), Files(h.tree), m.artifacts, h.sha, left)
    ensures !ok ==>
              || h.faults > old(h.faults) || !Readable(m, h.snapshots, h.objects, h.sha)
              || (left == {} && !Placeable(old(h.tree), m.artifacts) && ReachesOnly(old(h.tree), h.tree, m.artifacts))
  {
    var artifacts := Sort(m.artifacts, ArtifactBefore);
    SortedArtifacts(m.artifacts);
    ghost var t0 := h.tree;
    PlaceableIsReached(t0, m.artifacts, artifacts);
    ok, left := WriteAll(h, m, artifacts);
    if ok {
      assert artifacts[..|artifacts|] == artifacts;
      StopIsUnique(t0, artifacts, |artifacts|);
      OverlaidSame(Files(t0), Files(h.tree), artifacts, m.artifacts, h.objects);
      OverlaidIsMixed(Files(t0), Files(h.tree), m.artifacts, |m.artifacts|, h.objects, h.sha);
    } else {
      MixedSame(Files(t0), Files(h.tree), artifacts, m.artifacts, h.sha, left);
    }
  }

  // The files are the old ones and those reached.
  ghost predicate ReachesOnly(t0: Tree, t: Tree, arts: seq<Artifact>) {
    Files(t).Keys == Files(t0).Keys + Reach(t0, arts)
  }

  lemma OverlaidSame(f0: map<Path, Bytes>, f: map<Path, Bytes>, s: seq<Artifact>, arts: seq<Artifact>, objects: map<Digest, Bytes>)
    requires SameArtifacts(s, arts) && Overlaid(f0, f, s, objects)
    ensures Overlaid(f0, f, arts, objects) && Overlaid(f0, f, arts[..|arts|], objects)
  {
    assert arts[..|arts|] == arts;
  }

  lemma MixedSame(f0: map<Path, Bytes>, f: map<Path, Bytes>, s: seq<Artifact>, arts: seq<Artifact>, sha: Bytes -> Digest, left: set<Path>)
    requires SameArtifacts(s, arts) && Mixed(f0, f, s, sha, left)
    ensures Mixed(f0, f, arts, sha, left)
  {
    forall p | p in f && FromSnapshot(p, f[p], s, sha) ensures FromSnapshot(p, f[p], arts, sha) {}
  }

  // The remove loop.
  method RemoveExtras(h: Host, current: seq<Path>, targets: set<Path>) returns (ok: bool)
    requires h.Valid() && Distinct(current) && forall p :: p in current ==> p != [] && FileAt(h.tree, p)
    modifies h`tree, h`faults
    ensures h.Valid() && h.faults >= old(h.faults) && Shrinks(old(h.tree), h.tree)
    ensures ok ==> forall p :: p in Files(h.tree) <==> p in Files(old(h.tree)) && (p in current ==> p in targets)
    ensures !ok ==> h.faults > old(h.faults)
  {
    ghost var t0 := h.tree;
    for i := 0 to |current|
      invariant h.Valid() && h.faults >= old(h.faults) && Shrinks(t0, h.tree)
      invariant forall p :: p in Files(h.tree) <==> p in Files(t0) && (p in current[..i] ==> p in targets)
    {
      var p := current[i];
      assert p in current && p !in current[..i];
      assert current[..i + 1] == current[..i] + [p];
      if p in targets { continue; }
      var info := h.Lstat(p);
      if !info.Present? || !info.node.File? { return false; }
      var removed := h.Remove(p);
      if !removed { return false; }
    }
    assert current[..|current|] == current;
    ok := true;
  }

  lemma RootStays(t0: Tree, t: Tree)
    requires WellFormed(t0) && Grows(t0, t)
    ensures ([] in t0 ==> t0[[]].Dir?) <==> ([] in t ==> t[[]].Dir?)
  {
    if [] !in t0 { NothingBelowMissingRoot(t0); }
  }

  lemma OnlyTargetsHold(f0: map<Path, Bytes>, t1: Tree, t2: Tree, arts: seq<Artifact>, objects: map<Digest, Bytes>, sha: Bytes -> Digest)
    requires Overlaid(f0, Files(t1), arts, objects) && Shrinks(t1, t2)
    requires forall a :: a in arts ==> Intact(a, objects, sha)
    requires forall p :: p in Files(t2) <==> p in Files(t1) && p in PathsOf(arts)
    ensures Holds(arts, Files(t2), sha)
  {
    assert Files(t2).Keys == PathsOf(arts);
    forall a | a in arts ensures sha(Files(t2)[a.path]) == a.sha {
      assert a.path in PathsOf(arts);
    }
  }

  // Discovery and the remove loop.
  method RemoveOthers(h: Host, targets: set<Path>) returns (ok: bool)
    requires h.Valid()
    modifies h`tree, h`faults
    ensures h.Valid() && h.faults >= old(h.faults) && Shrinks(old(h.tree), h.tree)
    ensures ok ==> Discoverable(old(h.tree)) && forall p :: p in Files(h.tree) <==> p in Files(old(h.tree)) && p in targets
    ensures !ok ==> h.faults > old(h.faults) || (!Discoverable(old(h.tree)) && h.tree == old(h.tree))
  {
    var current := Discover(h);
    if current.None? { return false; }
    ok := RemoveExtras(h, current.value, targets);
  }

  // Writing the snapshot and removing the rest leaves the tree in a state that
  // keeps the shape of the old one.
  lemma MixedShrinks(t0: Tree, t1: Tree, t2: Tree, arts: seq<Artifact>, sha: Bytes -> Digest, left: set<Path>)
    requires Grows(t0, t1) && Mixed(Files(t0), Files(t1), arts, sha, left) && Shrinks(t1, t2)
    ensures KeepsShape(t0, t2) && Mixed(Files(t0), Files(t2), arts, sha, left)
  {
    GrowThenShrink(t0, t1, t2);
    forall p | p in Files(t2) ensures p in Files(t1) && Files(t2)[p] == Files(t1)[p] {}
  }

  // Apply meets no obstacle: the manifest is restorable and readable, its paths
  // can be written, and all files together fit the discovery.
  ghost predicate Applicable(t: Tree, m: Manifest, snapshots: map<string, Manifest>, objects: map<Digest, Bytes>, sha: Bytes -> Digest) {
    ValidManifest(m) && Readable(m, snapshots, objects, sha) && Welcomes(t, m.artifacts)
  }

  ghost predicate Welcomes(t: Tree, arts: seq<Artifact>) {
    ([] in t ==> t[[]].Dir?) && Placeable(t, arts) && |Files(t).Keys + PathsOf(arts)| <= MAX_FILES
  }

  lemma HeldAfterBoth(t0: Tree, t1: Tree, t2: Tree, arts: seq<Artifact>, objects: map<Digest, Bytes>, sha: Bytes -> Digest)
    requires WellFormed(t0) && Grows(t0, t1) && Overlaid(Files(t0), Files(t1), arts, objects) && Placeable(t0, arts)
    requires Shrinks(t1, t2) && Discoverable(t1) && forall p :: p in Files(t2) <==> p in Files(t1) && p in PathsOf(arts)
    requires forall a :: a in arts ==> Intact(a, objects, sha)
    ensures Holds(arts, Files(t2), sha) && Welcomes(t0, arts) && ([] in t2 ==> t2[[]].Dir?)
  {
    OnlyTargetsHold(Files(t0), t1, t2, arts, objects, sha);
    WrittenIsDiscoverable(t0, t1, arts, objects);
  }

  lemma TooManyFiles(t0: Tree, t1: Tree, arts: seq<Artifact>, objects: map<Digest, Bytes>)
    requires UniqueIds(arts) && UniquePaths(arts) && !Discoverable(t1)
    requires WellFormed(t0) && Grows(t0, t1) && Overlaid(Files(t0), Files(t1), arts, objects) && Placeable(t0, arts)
    ensures !Welcomes(t0, arts) && ReachesOnly(t0, t1, arts)
  {
    WrittenIsDiscoverable(t0, t1, arts, objects);
    AllReached(t0, t1, arts, objects);
  }

  lemma WrittenIsDiscoverable(t0: Tree, t: Tree, arts: seq<Artifact>, objects: map<Digest, Bytes>)
    requires WellFormed(t0) && Grows(t0, t) && Overlaid(Files(t0), Files(t), arts, objects) && Placeable(t0, arts)
    ensures Discoverable(t) <==> Welcomes(t0, arts)
  {
    RootStays(t0, t);
  }

  lemma AllReached(t0: Tree, t: Tree, arts: seq<Artifact>, objects: map<Digest, Bytes>)
    requires UniqueIds(arts) && UniquePaths(arts) && Placeable(t0, arts) && Overlaid(Files(t0), Files(t), arts, objects)
    ensures ReachesOnly(t0, t, arts)
  {
    SortedArtifacts(arts);
    PlaceableIsReached(t0, arts, Sort(arts, ArtifactBefore));
  }

  // The old tree with all artifacts written.
  ghost predicate AllWritten(t0: Tree, t: Tree, arts: seq<Artifact>, objects: map<Digest, Bytes>, sha: Bytes -> Digest) {
    && UniqueIds(arts) && UniquePaths(arts) && WellFormed(t0) && Grows(t0, t)
    && Overlaid(Files(t0), Files(t), arts, objects) && Placeable(t0, arts)
    && (forall a :: a in arts ==> Intact(a, objects, sha))
  }

  // The second half of an apply.
  method RemoveRest(h: Host, arts: seq<Artifact>, ghost t0: Tree) returns (ok: bool)
    requires h.Valid() && AllWritten(t0, h.tree, arts, h.objects, h.sha)
    modifies h`tree, h`faults
    ensures h.Valid() && h.faults >= old(h.faults) && KeepsShape(t0, h.tree)
    ensures Mixed(Files(t0), Files(h.tree), arts, h.sha, {})
    ensures ok ==> Holds(arts, Files(h.tree), h.sha) && Welcomes(t0, arts) && ([] in h.tree ==> h.tree[[]].Dir?)
    ensures !ok ==> h.faults > old(h.faults) || (!Welcomes(t0, arts) && ReachesOnly(t0, h.tree, arts))
  {
    ghost var t1 := h.tree;
    ok := RemoveOthers(h, PathsOf(arts));
    assert arts[..|arts|] == arts;
    OverlaidIsMixed(Files(t0), Files(t1), arts, |arts|, h.objects, h.sha);
    MixedShrinks(t0, t1, h.tree, arts, h.sha, {});
    if ok {
      HeldAfterBoth(t0, t1, h.tree, arts, h.objects, h.sha);
    } else if !Discoverable(t1) {
      TooManyFiles(t0, t1, arts, h.objects);
    }
  }

  // Both loops, once the content has been validated.
  method WriteThenRemove(h: Host, m: Manifest) returns (ok: bool, ghost left: set<Path>)
    requires h.Valid() && StoreAgrees(h, m) && ValidManifest(m) && Readable(m, h.snapshots, h.objects, h.sha)
    modifies h`tree, h`faults
    ensures h.Valid() && h.faults >= old(h.faults) && |left| <= 1 && KeepsShape(old(h.tree), h.tree)
    ensures Mixed(Files(old(h.tree)), Files(h.tree), m.artifacts, h.sha, left)
    ensures ok ==> left == {} && Holds(m.artifacts, Files(h.tree), h.sha) && Welcomes(old(h.tree), m.artifacts)
    ensures ok ==> ([] in h.tree ==> h.tree[[]].Dir?)
    ensures !ok ==> h.faults > old(h.faults) || (!Welcomes(old(h.tree), m.artifacts) && ReachesOnly(old(h.tree), h.tree, m.artifacts))
    ensures left != {} ==> h.faults > old(h.faults)
  {
    ghost var t0 := h.tree;
    ok, left := WriteSnapshot(h, m);
    if !ok {
      MixedShrinks(t0, h.tree, h.tree, m.artifacts, h.sha, left);
      return;
    }
    ok := RemoveRest(h, m.artifacts, t0);
  }

  method Apply(h: Host, m: Manifest) returns (ok: bool, ghost left: set<Path>)
    requires h.Valid() && StoreAgrees(h, m)
    modifies h`tree, h`faults
    ensures h.Valid() && h.faults >= old(h.faults) && |left| <= 1 && KeepsShape(old(h.tree), h.tree)
    ensures Mixed(Files(old(h.tree)), Files(h.tree), m.artifacts, h.sha, left)
    ensures ok ==> left == {} && Applicable(old(h.tree), m, h.snapshots, h.objects, h.sha)
    ensures ok ==> Holds(m.artifacts, Files(h.tree), h.sha) && ([] in h.tree ==> h.tree[[]].Dir?)
    ensures !ok ==> h.faults > old(h.faults) || !Applicable(old(h.tree), m, h.snapshots, h.objects, h.sha)
    ensures !ok && h.faults == old(h.faults) && ValidManifest(m) && Readable(m, h.snapshots, h.objects, h.sha) ==>
              ReachesOnly(old(h.tree), h.tree, m.artifacts)
    ensures !ok && h.faults == old(h.faults) ==> Files(old(h.tree)).Keys <= Files(h.tree).Keys
    ensures left != {} ==> h.faults > old(h.faults)
  {
    var valid := ValidateContent(h, m);
    if !valid {
      NothingDone(h.tree, m.artifacts, h.sha);
      return false, {};
    }
    ok, left := WriteThenRemove(h, m);
  }

  lemma NothingDone(t: Tree, arts: seq<Artifact>, sha: Bytes -> Digest)
    ensures KeepsShape(t, t) && Mixed(Files(t), Files(t), arts, sha, {})
  {
  }
}
