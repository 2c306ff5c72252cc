// Discovery of the managed files and the comparison with a snapshot.

module ConfigVault {
  import opened ManagedTree
  import opened VaultHost
  import opened Orders
  import opened Text
  import opened Wrappers

  datatype Status = Removed | Changed | Unchanged | Added

  datatype DiffItem = DiffItem(id: string, path: Path, status: Status, snapshot: Option<Digest>, current: Option<Digest>)

  datatype Diff = Diff(snapshotId: string, component: string, changed: bool, items: seq<DiffItem>)

  predicate ItemBefore(x: DiffItem, y: DiffItem) { PathBefore(x.path, y.path) }

  // What an item says about its path: where the path occurs, and both digests.
  ghost predicate ItemRight(x: DiffItem, arts: seq<Artifact>, files: map<Path, Bytes>, sha: Bytes -> Digest, artifactId: Path -> string) {
    && x.path in PathsOf(arts) + files.Keys
    && (x.path in PathsOf(arts) ==> x.snapshot.Some? && exists a :: a in arts && a.path == x.path && a.id == x.id && a.sha == x.snapshot.value)
    && (x.path !in PathsOf(arts) ==> x.snapshot.None? && x.id == artifactId(x.path))
    && (x.current == if x.path in files then Some(sha(files[x.path])) else None)
    && (x.status.Removed? <==> x.current.None?)
    && (x.status.Added? <==> x.snapshot.None?)
    && (x.status.Unchanged? <==> x.current == x.snapshot)
  }

  ghost predicate OnePerPath(items: seq<DiffItem>) {
    forall i, j :: 0 <= i < j < |items| ==> items[i].path != items[j].path
  }

  ghost predicate Covers(items: seq<DiffItem>, p: Path) { exists x :: x in items && x.path == p }

  ghost predicate ExactDiff(d: Diff, m: Manifest, files: map<Path, Bytes>, sha: Bytes -> Digest, artifactId: Path -> string) {
    && d.snapshotId == m.id && d.component == m.component
    && (d.changed <==> !Holds(m.artifacts, files, sha))
    && Sorted(d.items, ItemBefore)
    && (forall x :: x in d.items ==> ItemRight(x, m.artifacts, files, sha, artifactId))
    && (forall p :: p in PathsOf(m.artifacts) + files.Keys ==> Covers(d.items, p))
    && (UniquePaths(m.artifacts) ==> OnePerPath(d.items))
  }

  // A discovery in full: each regular file once, by its path as a string, and
  // at most 128 of them below a directory or nothing.
  lemma DiscoveryMeans(paths: seq<Path>, t: Tree)
    ensures Discovered(paths, t) <==>
      && (forall p :: p in paths <==> p in t && t[p].File?)
      && forall i, j :: 0 <= i < j < |paths| ==> paths[i] != paths[j] && !Less(PathString(paths[j]), PathString(paths[i]))
    ensures Discoverable(t) <==> ([] in t ==> t[[]].Dir?) && |set p | p in t && t[p].File?| <= 128
  {
    assert Files(t).Keys == set p | p in t && t[p].File?;
    assert forall p :: p in Files(t) <==> p in t && t[p].File?;
  }

  method Discover(h: Host) returns (r: Option<seq<Path>>)
    requires h.Valid()
    modifies h`faults
    ensures h.faults >= old(h.faults)
    ensures r.Some? ==> Discovered(r.value, h.tree) && Discoverable(h.tree)
    ensures r.None? ==> h.faults > old(h.faults) || !Discoverable(h.tree)
  {
    var root := h.Lstat([]);
    if root.Absent? {
      NothingBelowMissingRoot(h.tree);
      return Some([]);
    }
    if root.Unreadable? || !root.node.Dir? { return None; }
    var paths: seq<Path> := [];
    var todo := h.tree.Keys - {[]};
    while todo != {}
      invariant h.faults >= old(h.faults)
      invariant todo <= h.tree.Keys - {[]} && Distinct(paths) && |paths| <= MAX_FILES
      invariant forall p :: p in paths <==> p in Files(h.tree) && p !in todo
      decreases todo
    {
      var path :| path in todo;
      todo := todo - {path};
      var failed := h.MayFail();
      if failed { return None; }
      if h.tree[path].File? {
        if |paths| >= MAX_FILES {
          TooMany(h.tree, paths, path);
          return None;
        }
        paths := paths + [path];
      }
    }
    SortKeeps(paths, PathBefore);
    SortDistinct(paths, PathBefore);
    PathOrder();
    SortSorts(paths, PathBefore);
    FileCount(Sort(paths, PathBefore), h.tree);
    r := Some(Sort(paths, PathBefore));
  }

  lemma NothingBelowMissingRoot(t: Tree)
    requires WellFormed(t) && [] !in t
    ensures t.Keys == {} && Files(t).Keys == {}
  {
    forall p ensures p !in t { if p in t && p != [] { AncestorsAreDirs(t, Parent(p), 0); assert false; } }
  }

  lemma TooMany(t: Tree, paths: seq<Path>, extra: Path)
    requires Distinct(paths) && |paths| >= MAX_FILES && extra !in paths && extra in Files(t)
    requires forall p :: p in paths ==> p in Files(t)
    ensures |Files(t).Keys| > MAX_FILES
  {
    var some := set p | p in paths;
    DistinctSetSize(paths);
    SubsetSize(some + {extra}, Files(t).Keys);
  }

  method Sha256RegularFile(h: Host, p: Path) returns (r: Option<Digest>)
    requires p != [] && FileAt(h.tree, p) && DirAt(h.tree, Parent(p))
    modifies h`faults
    ensures h.faults >= old(h.faults)
    ensures r.Some? ==> r.value == h.sha(h.tree[p].content)
    ensures r.None? ==> h.faults > old(h.faults)
  {
    var stat := h.Lstat(p);
    if !stat.Present? || !stat.node.File? { return None; }
    var content := h.ReadFile(p);
    if content.None? { return None; }
    r := Some(h.sha(content.value));
  }

  method BuildDiff(h: Host, id: string) returns (r: Option<Diff>)
    requires h.Valid()
    modifies h`faults
    ensures h.faults >= old(h.faults)
    ensures r.Some? ==> id in h.snapshots && Discoverable(h.tree)
    ensures r.Some? ==> ExactDiff(r.value, h.snapshots[id], Files(h.tree), h.sha, h.artifactId)
    ensures r.None? ==> h.faults > old(h.faults) || id !in h.snapshots || !Discoverable(h.tree)
  {
    var manifest := h.Get(id);
    if manifest.None? { return None; }
    var m := manifest.value;
    var discovered := Discover(h);
    if discovered.None? { return None; }
    var current := discovered.value;
    var first := DiffSnapshot(h, m.artifacts, current, Files(h.tree));
    if first.None? { return None; }
    var second := DiffAdded(h, m.artifacts, current, Files(h.tree));
    if second.None? { return None; }
    var items := first.value + second.value;
    var changed := second.value != [] || exists x :: x in first.value && !x.status.Unchanged?;
    DiffIsExact(m, Files(h.tree), current, first.value, second.value, h.sha, h.artifactId);
    r := Some(Diff(m.id, m.component, changed, Sort(items, ItemBefore)));
  }

  ghost predicate SnapshotItems(items: seq<DiffItem>, arts: seq<Artifact>, files: map<Path, Bytes>, sha: Bytes -> Digest) {
    && |items| == |arts|
    && forall k :: 0 <= k < |arts| ==> items[k] == SnapshotItem(arts[k], if arts[k].path in files then Some(sha(files[arts[k].path])) else None)
  }

  function SnapshotItem(a: Artifact, current: Option<Digest>): DiffItem {
    var status := if current.None? then Removed else if current.value != a.sha then Changed else Unchanged;
    DiffItem(a.id, a.path, status, Some(a.sha), current)
  }

  // The listed paths are the files, each in a directory.
  ghost predicate Reachable(current: seq<Path>, t: Tree, files: map<Path, Bytes>) {
    && (forall p :: p in files ==> p in current)
    && (forall p :: p in current ==> p != [] && p in files && FileAt(t, p) && t[p].content == files[p] && DirAt(t, Parent(p)))
  }

  method DiffSnapshot(h: Host, arts: seq<Artifact>, current: seq<Path>, ghost files: map<Path, Bytes>) returns (r: Option<seq<DiffItem>>)
    requires Distinct(current) && Reachable(current, h.tree, files)
    modifies h`faults
    ensures h.faults >= old(h.faults)
    ensures r.Some? ==> SnapshotItems(r.value, arts, files, h.sha)
    ensures r.None? ==> h.faults > old(h.faults)
  {
    var items: seq<DiffItem> := [];
    for i := 0 to |arts|
      invariant h.faults >= old(h.faults)
      invariant SnapshotItems(items, arts[..i], files, h.sha)
    {
      var checksum := None;
      if arts[i].path in current {
        checksum := Sha256RegularFile(h, arts[i].path);
        if checksum.None? { return None; }
      }
      SnapshotNext(items, arts, i, files, h.sha);
      items := items + [SnapshotItem(arts[i], checksum)];
    }
    assert arts[..|arts|] == arts;
    r := Some(items);
  }

  ghost predicate AddedItems(items: seq<DiffItem>, arts: seq<Artifact>, current: seq<Path>, files: map<Path, Bytes>,
                             sha: Bytes -> Digest, artifactId: Path -> string) {
    && (forall x :: x in items ==> x.path in current && x.path in files && x.path !in PathsOf(arts)
                                   && x == DiffItem(artifactId(x.path), x.path, Added, None, Some(sha(files[x.path]))))
    && (forall p :: p in current && p !in PathsOf(arts) ==> Covers(items, p))
    && OnePerPath(items)
  }

  lemma AddedNext(items: seq<DiffItem>, arts: seq<Artifact>, done: seq<Path>, p: Path, files: map<Path, Bytes>,
                  sha: Bytes -> Digest, artifactId: Path -> string)
    requires AddedItems(items, arts, done, files, sha, artifactId) && p !in done && p in files
    ensures p in PathsOf(arts) ==> AddedItems(items, arts, done + [p], files, sha, artifactId)
    ensures p !in PathsOf(arts) ==>
              AddedItems(items + [DiffItem(artifactId(p), p, Added, None, Some(sha(files[p])))], arts, done + [p], files, sha, artifactId)
  {
    if p !in PathsOf(arts) {
      var x := DiffItem(artifactId(p), p, Added, None, Some(sha(files[p])));
      forall i | 0 <= i < |items| ensures items[i].path != p { assert items[i] in items; }
      assert x in items + [x];
      assert Covers([x], p) by { assert x in [x]; }
      forall q | q in done + [p] && q !in PathsOf(arts) ensures Covers(items + [x], q) { CoversJoined(items, [x], q); }
    }
  }

  method DiffAdded(h: Host, arts: seq<Artifact>, current: seq<Path>, ghost files: map<Path, Bytes>) returns (r: Option<seq<DiffItem>>)
    requires Distinct(current) && Reachable(current, h.tree, files)
    modifies h`faults
    ensures h.faults >= old(h.faults)
    ensures r.Some? ==> AddedItems(r.value, arts, current, files, h.sha, h.artifactId)
    ensures r.None? ==> h.faults > old(h.faults)
  {
    var seen := PathsOf(arts);
    var items: seq<DiffItem> := [];
    for i := 0 to |current|
      invariant h.faults >= old(h.faults)
      invariant AddedItems(items, arts, current[..i], files, h.sha, h.artifactId)
    {
      var p := current[i];
      assert p in current && p !in current[..i];
      AddedNext(items, arts, current[..i], p, files, h.sha, h.artifactId);
      assert current[..i + 1] == current[..i] + [p];
      if p in seen { continue; }
      var checksum := Sha256RegularFile(h, p);
      if checksum.None? { return None; }
      items := items + [DiffItem(h.artifactId(p), p, Added, None, checksum)];
    }
    assert current[..|current|] == current;
    r := Some(items);
  }

  lemma ItemOrder()
    ensures StrictWeak(ItemBefore)
  {
    PathOrder();
    forall x: DiffItem, y: DiffItem, z: DiffItem | !ItemBefore(x, y) && !ItemBefore(y, z) ensures !ItemBefore(x, z) {
      assert !PathBefore(x.path, y.path) && !PathBefore(y.path, z.path);
    }
  }

  lemma SnapshotNext(items: seq<DiffItem>, arts: seq<Artifact>, i: nat, files: map<Path, Bytes>, sha: Bytes -> Digest)
    requires i < |arts| && SnapshotItems(items, arts[..i], files, sha)
    ensures var current := if arts[i].path in files then Some(sha(files[arts[i].path])) else None;
      SnapshotItems(items + [SnapshotItem(arts[i], current)], arts[..i + 1], files, sha)
  {
  }

  lemma SnapshotItemsRight(first: seq<DiffItem>, arts: seq<Artifact>, files: map<Path, Bytes>, sha: Bytes -> Digest,
                           artifactId: Path -> string)
    requires SnapshotItems(first, arts, files, sha)
    ensures forall x :: x in first ==> ItemRight(x, arts, files, sha, artifactId)
    ensures forall p :: p in PathsOf(arts) ==> Covers(first, p)
    ensures UniquePaths(arts) ==> OnePerPath(first)
  {
    forall x | x in first ensures ItemRight(x, arts, files, sha, artifactId) {
      var k :| 0 <= k < |first| && first[k] == x;
      assert arts[k] in arts;
    }
    forall p | p in PathsOf(arts) ensures Covers(first, p) {
      var a :| a in arts && a.path == p;
      var k :| 0 <= k < |arts| && arts[k] == a;
      assert first[k] in first;
    }
  }

  lemma AllUnchanged(first: seq<DiffItem>, arts: seq<Artifact>, files: map<Path, Bytes>, sha: Bytes -> Digest)
    requires SnapshotItems(first, arts, files, sha)
    ensures (exists x :: x in first && !x.status.Unchanged?) <==> !forall a :: a in arts ==> a.path in files && sha(files[a.path]) == a.sha
  {
    if x :| x in first && !x.status.Unchanged? {
      var k :| 0 <= k < |first| && first[k] == x;
      assert arts[k] in arts;
    } else {
      forall a | a in arts ensures a.path in files && sha(files[a.path]) == a.sha {
        var k :| 0 <= k < |arts| && arts[k] == a;
        assert first[k] in first;
      }
    }
  }

  lemma SortOnePerPath(items: seq<DiffItem>)
    requires OnePerPath(items)
    ensures OnePerPath(Sort(items, ItemBefore))
  {
    var t := Sort(items, ItemBefore);
    assert Distinct(items);
    SortKeeps(items, ItemBefore);
    SortDistinct(items, ItemBefore);
    forall i, j | 0 <= i < j < |t| ensures t[i].path != t[j].path {
      assert t[i] in t && t[j] in t;
      var k :| 0 <= k < |items| && items[k] == t[i];
      var l :| 0 <= l < |items| && items[l] == t[j];
      assert k < l || l < k;
    }
  }

  lemma AddedItemsRight(second: seq<DiffItem>, arts: seq<Artifact>, current: seq<Path>, files: map<Path, Bytes>,
                        sha: Bytes -> Digest, artifactId: Path -> string)
    requires AddedItems(second, arts, current, files, sha, artifactId)
    ensures forall x :: x in second ==> ItemRight(x, arts, files, sha, artifactId)
  {
  }

  lemma CoversJoined(first: seq<DiffItem>, second: seq<DiffItem>, p: Path)
    requires Covers(first, p) || Covers(second, p)
    ensures Covers(first + second, p)
  {
    var x :| (x in first || x in second) && x.path == p;
    assert x in first + second;
  }

  lemma JoinedItems(first: seq<DiffItem>, second: seq<DiffItem>, arts: seq<Artifact>, current: seq<Path>,
                    files: map<Path, Bytes>, sha: Bytes -> Digest, artifactId: Path -> string)
    requires SnapshotItems(first, arts, files, sha) && AddedItems(second, arts, current, files, sha, artifactId)
    requires forall p :: p in current <==> p in files
    ensures forall p :: p in PathsOf(arts) + files.Keys ==> Covers(first + second, p)
  {
    SnapshotItemsRight(first, arts, files, sha, artifactId);
    forall p | p in PathsOf(arts) + files.Keys ensures Covers(first + second, p) {
      assert p in PathsOf(arts) ==> Covers(first, p);
      assert p !in PathsOf(arts) ==> p in current && Covers(second, p);
      CoversJoined(first, second, p);
    }
  }

  lemma JoinedOnePerPath(first: seq<DiffItem>, second: seq<DiffItem>, arts: seq<Artifact>)
    requires |first| == |arts| && (forall k :: 0 <= k < |arts| ==> first[k].path == arts[k].path) && UniquePaths(arts)
    requires (forall x :: x in second ==> x.path !in PathsOf(arts)) && OnePerPath(second)
    ensures OnePerPath(first + second)
  {
    var items := first + second;
    forall i, j | 0 <= i < j < |items| ensures items[i].path != items[j].path {
      if i < |first| <= j {
        assert items[i] == first[i] && arts[i] in arts;
        assert items[j] == second[j - |first|] && items[j] in second;
      }
    }
  }

  lemma DiffIsExact(m: Manifest, files: map<Path, Bytes>, current: seq<Path>, first: seq<DiffItem>,
                    second: seq<DiffItem>, sha: Bytes -> Digest, artifactId: Path -> string)
    requires SnapshotItems(first, m.artifacts, files, sha)
    requires AddedItems(second, m.artifacts, current, files, sha, artifactId)
    requires forall p :: p in current <==> p in files
    ensures var changed := second != [] || exists x :: x in first && !x.status.Unchanged?;
      ExactDiff(Diff(m.id, m.component, changed, Sort(first + second, ItemBefore)), m, files, sha, artifactId)
  {
    var arts, items := m.artifacts, first + second;
    SortKeeps(items, ItemBefore);
    ItemOrder();
    SortSorts(items, ItemBefore);
    ItemsAreRight(first, second, Sort(items, ItemBefore), arts, current, files, sha, artifactId);
    if UniquePaths(arts) {
      JoinedOnePerPath(first, second, arts);
      SortOnePerPath(items);
    }
    ChangedIffDifferent(first, second, arts, current, files, sha, artifactId);
  }

  lemma ItemsAreRight(first: seq<DiffItem>, second: seq<DiffItem>, items: seq<DiffItem>, arts: seq<Artifact>,
                      current: seq<Path>, files: map<Path, Bytes>, sha: Bytes -> Digest, artifactId: Path -> string)
    requires SnapshotItems(first, arts, files, sha) && AddedItems(second, arts, current, files, sha, artifactId)
    requires forall p :: p in current <==> p in files
    requires forall x :: x in items <==> x in first + second
    ensures forall x :: x in items ==> ItemRight(x, arts, files, sha, artifactId)
    ensures forall p :: p in PathsOf(arts) + files.Keys ==> Covers(items, p)
  {
    SnapshotItemsRight(first, arts, files, sha, artifactId);
    AddedItemsRight(second, arts, current, files, sha, artifactId);
    JoinedItems(first, second, arts, current, files, sha, artifactId);
    forall p | p in PathsOf(arts) + files.Keys ensures Covers(items, p) {
      var x :| x in first + second && x.path == p;
    }
  }

  lemma ChangedIffDifferent(first: seq<DiffItem>, second: seq<DiffItem>, arts: seq<Artifact>, current: seq<Path>,
                            files: map<Path, Bytes>, sha: Bytes -> Digest, artifactId: Path -> string)
    requires SnapshotItems(first, arts, files, sha) && AddedItems(second, arts, current, files, sha, artifactId)
    requires forall p :: p in current <==> p in files
    ensures (second != [] || exists x :: x in first && !x.status.Unchanged?) <==> !Holds(arts, files, sha)
  {
    AllUnchanged(first, arts, files, sha);
    if second != [] {
      assert second[0] in second && second[0].path in files.Keys && second[0].path !in PathsOf(arts);
    } else if forall a :: a in arts ==> a.path in files && sha(files[a.path]) == a.sha {
      assert forall p :: p in files ==> p in PathsOf(arts);
      assert files.Keys == PathsOf(arts);
    }
  }
}
