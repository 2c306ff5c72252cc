// The machine under the config vault: the managed tree and the vault
// directory, with the system calls and store operations that a restore uses.
// Any of them may fail; every failure not explained by the state is counted
// in the ghost field faults.

module VaultHost {
  import opened ManagedTree
  import opened Orders
  import opened Wrappers
  import opened Text

  datatype Stat = Absent | Present(node: Node) | Unreadable

  predicate IdBefore(a: Artifact, b: Artifact) { Less(a.id, b.id) }

  // From s0 and o0 to s and o nothing has gone but snapshots, and objects that
  // no remaining snapshot refers to.
  ghost predicate Pruned(s0: map<string, Manifest>, o0: map<Digest, Bytes>, s: map<string, Manifest>, o: map<Digest, Bytes>) {
    && (forall id :: id in s ==> id in s0 && s[id] == s0[id])
    && (forall d :: d in o ==> d in o0 && o[d] == o0[d])
    && (forall d :: d in o0 && Referenced(s, d) ==> d in o)
  }

  lemma PrunedFurther(s0: map<string, Manifest>, o0: map<Digest, Bytes>, s1: map<string, Manifest>, o1: map<Digest, Bytes>,
                      s2: map<string, Manifest>, o2: map<Digest, Bytes>)
    requires Pruned(s0, o0, s1, o1) && Pruned(s1, o1, s2, o2)
    ensures Pruned(s0, o0, s2, o2)
  {
    forall d | d in o0 && Referenced(s2, d) ensures d in o2 {
      var id :| id in s2 && exists a :: a in s2[id].artifacts && a.sha == d;
      assert id in s1 && Referenced(s1, d);
    }
  }

  // At most one snapshot is new and none has changed; the oldest others may have
  // gone, but not the last working one.
  ghost predicate AddsOne(s0: map<string, Manifest>, s: map<string, Manifest>, last: string) {
    && |s.Keys - s0.Keys| <= 1 && (forall id :: id in s && id in s0 ==> s[id] == s0[id])
    && (last in s0 ==> last in s)
  }

  lemma OneAdded(s0: map<string, Manifest>, s: map<string, Manifest>, m: Manifest, last: string, k: nat)
    requires OldestGone(s0[m.id := m], s[m.id := m], m.id, last, k) && m.id !in s0
    ensures AddsOne(s0, s, last)
  {
    SubsetSize(s.Keys - s0.Keys, {m.id});
    assert last in s0[m.id := m] ==> last !in s0[m.id := m].Keys - s[m.id := m].Keys;
    forall id | id in s && id in s0 ensures s[id] == s0[id] { assert s[m.id := m][id] == s[id]; }
  }

  lemma ListsOneMore(order: seq<string>, s: set<string>, id: string)
    requires Lists(order, s) && id !in s
    ensures Lists(order + [id], s + {id})
  {
  }

  lemma ListsSize(order: seq<string>, s: set<string>)
    requires Lists(order, s)
    ensures |s| == |order|
  {
    DistinctSetSize(order);
    assert s == set x | x in order;
  }

  lemma WithoutOne(s: map<string, Manifest>, o: map<Digest, Bytes>, id: string)
    ensures Pruned(s, o, s - {id}, o)
  {
  }

  // ---- retention -----------------------------------------------------------

  function CreatedAt(s: map<string, Manifest>, id: string): int { if id in s then s[id].created else 0 }

  predicate OlderThan(s: map<string, Manifest>, x: string, y: string) {
    CreatedAt(s, x) < CreatedAt(s, y) || (CreatedAt(s, x) == CreatedAt(s, y) && Less(x, y))
  }

  function Older(s: map<string, Manifest>): (string, string) -> bool { (x: string, y: string) => OlderThan(s, x, y) }

  // The order of a listing.
  function Newer(s: map<string, Manifest>): (string, string) -> bool { (x: string, y: string) => OlderThan(s, y, x) }

  lemma AgeIsTotal(s: map<string, Manifest>)
    ensures StrictTotal(Older(s)) && StrictWeak(Newer(s))
  {
    LessIsStrictTotal();
    var older, newer := Older(s), Newer(s);
    forall x, y, z | !newer(x, y) && !newer(y, z) ensures !newer(x, z) {
      assert x == y || older(x, y);
      assert y == z || older(y, z);
    }
  }

  function Others(s: map<string, Manifest>, kept: string, last: string): set<string> { s.Keys - {kept, last} }

  // Of s0 the k oldest snapshots have gone, not counting the new one and the
  // last working one, which stay.
  ghost predicate OldestGone(s0: map<string, Manifest>, s: map<string, Manifest>, kept: string, last: string, k: nat) {
    && s.Keys <= s0.Keys && (forall id :: id in s ==> s[id] == s0[id])
    && IsCut(Others(s0, kept, last), Older(s0), k, s0.Keys - s.Keys)
  }

  lemma NoneGone(s: map<string, Manifest>, kept: string, last: string)
    ensures OldestGone(s, s, kept, last, 0)
  {
    assert s.Keys - s.Keys == {};
  }

  ghost predicate Oldest(s: map<string, Manifest>, kept: string, last: string, id: string) {
    id in Others(s, kept, last) && forall y :: y in Others(s, kept, last) && y != id ==> Older(s)(id, y)
  }

  lemma OneMoreGone(s0: map<string, Manifest>, s: map<string, Manifest>, kept: string, last: string, k: nat, victim: string)
    requires OldestGone(s0, s, kept, last, k) && Oldest(s, kept, last, victim)
    ensures OldestGone(s0, s - {victim}, kept, last, k + 1)
  {
    var all, low := Others(s0, kept, last), s0.Keys - s.Keys;
    forall y | y in all - low && y != victim ensures Older(s0)(victim, y) {
      assert y in Others(s, kept, last) && Older(s)(victim, y);
      assert CreatedAt(s, y) == CreatedAt(s0, y) && CreatedAt(s, victim) == CreatedAt(s0, victim);
    }
    assert victim in all - low;
    CutGrows(all, Older(s0), k, low, victim);
    assert s0.Keys - (s - {victim}).Keys == low + {victim};
  }

  lemma GoneAfter(s0: map<string, Manifest>, s: map<string, Manifest>, next: map<string, Manifest>, kept: string, last: string,
                  k: nat, victim: string, removed: bool)
    requires OldestGone(s0, s, kept, last, k) && Oldest(s, kept, last, victim)
    requires next == if removed then s - {victim} else s
    ensures OldestGone(s0, next, kept, last, k + if removed then 1 else 0)
    ensures removed ==> |next| < |s|
  {
    OneMoreGone(s0, s, kept, last, k, victim);
    assert (s - {victim}).Keys == s.Keys - {victim};
    assert |s| == |s.Keys| && |s - {victim}| == |(s - {victim}).Keys|;
  }

  lemma ListingSorted(s: map<string, Manifest>, order: seq<string>)
    requires Lists(order, s.Keys)
    ensures Lists(Sort(order, Newer(s)), s.Keys) && Sorted(Sort(order, Newer(s)), Newer(s))
  {
    AgeIsTotal(s);
    SortSorts(order, Newer(s));
    SortKeeps(order, Newer(s));
    SortDistinct(order, Newer(s));
  }

  lemma ListingInFields(s: map<string, Manifest>, ids: seq<string>)
    requires Lists(ids, s.Keys) && Sorted(ids, Newer(s))
    ensures forall i, j :: 0 <= i < j < |ids| ==>
      && ids[i] in s && ids[j] in s
      && (s[ids[i]].created > s[ids[j]].created || (s[ids[i]].created == s[ids[j]].created && Less(ids[j], ids[i])))
  {
    AgeIsTotal(s);
    forall i, j | 0 <= i < j < |ids|
      ensures ids[i] in s && ids[j] in s
      ensures s[ids[i]].created > s[ids[j]].created || (s[ids[i]].created == s[ids[j]].created && Less(ids[j], ids[i]))
    {
      var x, y := ids[i], ids[j];
      assert x in ids && y in ids;
      assert !Newer(s)(y, x) && x != y;
      assert Older(s)(y, x);
    }
  }

  // Which snapshots have gone, told from their instants and ids.
  lemma GoneInFields(s0: map<string, Manifest>, s: map<string, Manifest>, kept: string, last: string, k: nat)
    requires OldestGone(s0, s, kept, last, k)
    ensures forall id :: id in s0 && id !in s ==>
      && id != kept && id != last
      && forall other :: other in s && other != kept && other != last ==>
           s0[id].created < s[other].created || (s0[id].created == s[other].created && Less(id, other))
  {
    forall id | id in s0 && id !in s
      ensures id != kept && id != last
      ensures forall other :: other in s && other != kept && other != last ==>
        s0[id].created < s[other].created || (s0[id].created == s[other].created && Less(id, other))
    {
      var gone := s0.Keys - s.Keys;
      assert id in gone;
      forall other | other in s && other != kept && other != last
        ensures s0[id].created < s[other].created || (s0[id].created == s[other].created && Less(id, other))
      {
        assert other in Others(s0, kept, last) - gone;
        assert Older(s0)(id, other);
      }
    }
  }

  // The last of a listing that is not protected is the oldest of those.
  lemma LastIsOldest(s: map<string, Manifest>, ids: seq<string>, kept: string, last: string, i: nat)
    requires Lists(ids, s.Keys) && Sorted(ids, Newer(s)) && i < |ids| && ids[i] != kept && ids[i] != last
    requires forall j :: i < j < |ids| ==> ids[j] == kept || ids[j] == last
    ensures Oldest(s, kept, last, ids[i])
  {
    AgeIsTotal(s);
    forall y | y in Others(s, kept, last) && y != ids[i] ensures Older(s)(ids[i], y) {
      var j :| 0 <= j < |ids| && ids[j] == y;
      assert j < i && !Newer(s)(ids[i], ids[j]);
    }
  }

  // ---- recording -----------------------------------------------------------

  // At most the object of p is new.
  ghost predicate AddsObject(o0: map<Digest, Bytes>, o: map<Digest, Bytes>, p: Path, t: Tree, sha: Bytes -> Digest)
    requires p != []
  {
    && (forall d :: d in o0 ==> d in o && o[d] == o0[d])
    && (forall d :: d in o && d !in o0 ==> sha(o[d]) == d && FileAt(t, Trimmed(p)) && t[Trimmed(p)].content == o[d])
  }

  lemma FileIsCapturable(t: Tree, p: Path)
    requires WellFormed(t) && p != [] && FileAt(t, Trimmed(p))
    ensures Capturable(t, p)
  {
    var q := Trimmed(p);
    assert Plain(q) && q[|q| - 1] == TrimRight(Base(p));
  }

  lemma RepeatedId(records: seq<Artifact>, paths: seq<Path>, i: nat, artifactId: Path -> string, t: Tree, sha: Bytes -> Digest)
    requires Recorded(records, paths, i, artifactId, t, sha) && i < |paths| && artifactId(paths[i]) in IdsOf(records)
    ensures exists k :: 0 <= k < i && artifactId(paths[k]) == artifactId(paths[i])
  {
    var a :| a in records && a.id == artifactId(paths[i]);
    var k :| 0 <= k < |records| && records[k] == a;
    assert artifactId(paths[k]) == artifactId(paths[i]);
  }

  lemma RecordedIds(records: seq<Artifact>, paths: seq<Path>, artifactId: Path -> string, t: Tree, sha: Bytes -> Digest)
    requires Recorded(records, paths, |paths|, artifactId, t, sha)
    ensures forall i, j :: 0 <= i < j < |paths| ==> artifactId(paths[i]) != artifactId(paths[j])
  {
    forall i, j | 0 <= i < j < |paths| ensures artifactId(paths[i]) != artifactId(paths[j]) {
      assert records[i].id != records[j].id;
    }
  }

  // What a new object changes for the paths still to come: nothing.
  lemma MoreObjects(o0: map<Digest, Bytes>, o1: map<Digest, Bytes>, o2: map<Digest, Bytes>, paths: seq<Path>, p: Path, id: string,
                    t: Tree, sha: Bytes -> Digest)
    requires p in paths && p != [] && ObjectsFrom(o0, o1, paths, t, sha) && o0.Keys <= o1.Keys && AddsObject(o1, o2, p, t, sha)
    ensures ObjectsFrom(o0, o2, paths, t, sha) && o0.Keys <= o2.Keys
    ensures CanRecord(p, id, t, o1, sha) <==> CanRecord(p, id, t, o0, sha)
  {
    forall d | d in o2 && d !in o0 ensures TakenObject(d, o2[d], paths, t, sha) {
      if d in o1 { assert TakenObject(d, o1[d], paths, t, sha); }
    }
    forall d | d in o1 && d !in o0 ensures sha(o1[d]) == d { assert TakenObject(d, o1[d], paths, t, sha); }
  }

  // What a capture records: one record for each path, with the path without the
  // white space at its end, and digest and size of the file there.
  lemma CaptureInFields(arts: seq<Artifact>, paths: seq<Path>, artifactId: Path -> string, t: Tree, sha: Bytes -> Digest)
    requires CapturedFrom(arts, paths, artifactId, t, sha) && forall p :: p in paths ==> p != []
    ensures |arts| == |paths| && forall i, j :: 0 <= i < j < |arts| ==> arts[i].id != arts[j].id
    ensures forall a :: a in arts ==>
      && a.path != [] && a.path in t && t[a.path].File? && a.sha == sha(t[a.path].content) && a.size == |t[a.path].content|
      && exists p :: p in paths && a.id == artifactId(p) && a.path == p[..|p| - 1] + [TrimRight(p[|p| - 1])]
    ensures forall p :: p in paths ==> exists a :: a in arts && a.id == artifactId(p)
  {
    forall a | a in arts
      ensures a.path != [] && a.path in t && t[a.path].File? && a.sha == sha(t[a.path].content) && a.size == |t[a.path].content|
      ensures exists p :: p in paths && a.id == artifactId(p) && a.path == p[..|p| - 1] + [TrimRight(p[|p| - 1])]
    {
      assert FromPath(a, paths, artifactId, t, sha);
      var p :| p in paths && Capturable(t, p) && a == RecordOf(t, p, artifactId(p), sha);
    }
    forall p | p in paths ensures exists a :: a in arts && a.id == artifactId(p) {
      assert RecordOf(t, p, artifactId(p), sha) in arts;
    }
  }

  function SortedById(records: seq<Artifact>): seq<Artifact> { Sort(records, IdBefore) }

  lemma IdOrder(records: seq<Artifact>)
    requires UniqueIds(records)
    ensures var arts := SortedById(records); forall i, j :: 0 <= i < j < |arts| ==> Less(arts[i].id, arts[j].id)
  {
    LessIsStrictTotal();
    assert StrictWeak(IdBefore);
    SortSorts(records, IdBefore);
    SortUnique(records, IdBefore);
    var arts := SortedById(records);
    forall i, j | 0 <= i < j < |arts| ensures Less(arts[i].id, arts[j].id) {
      assert !IdBefore(arts[j], arts[i]) && arts[i].id != arts[j].id;
    }
  }

  lemma {:induction false} SortedStays(arts: seq<Artifact>)
    requires forall i, j :: 0 <= i < j < |arts| ==> Less(arts[i].id, arts[j].id)
    ensures SortedById(arts) == arts
  {
    if arts != [] { SortedStays(arts[1..]); }
  }

  lemma SortedTwice(records: seq<Artifact>)
    requires UniqueIds(records)
    ensures SortedById(SortedById(records)) == SortedById(records)
  {
    IdOrder(records);
    SortedStays(SortedById(records));
  }

  class Host {
    var tree: Tree
    var snapshots: map<string, Manifest>
    var objects: map<Digest, Bytes>
    var lastWorking: string
    ghost var faults: nat
    const maxSnapshots: nat
    const sha: Bytes -> Digest
    const artifactId: Path -> string

    ghost predicate Valid()
      reads this
    {
      && WellFormed(tree)
      && forall id :: id in snapshots ==> snapshots[id].id == id
    }

    constructor (tree: Tree, snapshots: map<string, Manifest>, objects: map<Digest, Bytes>, lastWorking: string, maxSnapshots: nat,
                 sha: Bytes -> Digest, artifactId: Path -> string)
      requires WellFormed(tree) && forall id :: id in snapshots ==> snapshots[id].id == id
      ensures Valid() && this.tree == tree && this.snapshots == snapshots && this.objects == objects && faults == 0
      ensures this.lastWorking == lastWorking && this.maxSnapshots == maxSnapshots && this.sha == sha && this.artifactId == artifactId
    {
      this.lastWorking, this.maxSnapshots := lastWorking, maxSnapshots;
      this.tree, this.snapshots, this.objects := tree, snapshots, objects;
      this.sha, this.artifactId, faults := sha, artifactId, 0;
    }

    method MayFail() returns (failed: bool)
      modifies this`faults
      ensures faults == old(faults) + if failed then 1 else 0
    {
      failed := *;
      if failed { faults := faults + 1; }
    }

    // os.Lstat on a path whose parent is known to be a directory.
    method Lstat(p: Path) returns (s: Stat)
      requires p == [] || DirAt(tree, Parent(p))
      modifies this`faults
      ensures s.Unreadable? ==> faults > old(faults)
      ensures !s.Unreadable? ==> faults == old(faults) && s == if p in tree then Present(tree[p]) else Absent
    {
      var failed := MayFail();
      s := if failed then Unreadable else if p in tree then Present(tree[p]) else Absent;
    }

    method Mkdir(p: Path) returns (ok: bool)
      requires Valid() && p != [] && DirAt(tree, Parent(p)) && p !in tree && Plain(p)
      modifies this`tree, this`faults
      ensures Valid()
      ensures tree == if ok then old(tree)[p := Dir] else old(tree)
      ensures faults == old(faults) + if ok then 0 else 1
    {
      var failed := MayFail();
      ok := !failed;
      if ok { tree := tree[p := Dir]; }
    }

    method Remove(p: Path) returns (ok: bool)
      requires Valid() && FileAt(tree, p)
      modifies this`tree, this`faults
      ensures Valid()
      ensures tree == if ok then old(tree) - {p} else old(tree)
      ensures faults == old(faults) + if ok then 0 else 1
    {
      var failed := MayFail();
      ok := !failed;
      if ok { tree := tree - {p}; }
    }

    method ReadFile(p: Path) returns (r: Option<Bytes>)
      requires FileAt(tree, p)
      modifies this`faults
      ensures r.Some? ==> r.value == tree[p].content && faults == old(faults)
      ensures r.None? ==> faults > old(faults)
    {
      var failed := MayFail();
      r := if failed then None else Some(tree[p].content);
    }

    // Write to a temporary sibling, then rename. The clean-up of a failed
    // write ignores its own error, so the sibling may stay behind.
    method WriteFileAtomic(p: Path, content: Bytes) returns (ok: bool, ghost left: set<Path>)
      requires Valid() && p != [] && DirAt(tree, Parent(p)) && Plain(p) && (p in tree ==> tree[p].File?)
      modifies this`tree, this`faults
      ensures Valid()
      ensures ok ==> tree == old(tree)[p := File(content)] && faults == old(faults) && left == {}
      ensures !ok ==> faults > old(faults) && |left| <= 1 && tree.Keys == old(tree).Keys + left
      ensures !ok ==> forall q :: q in left ==> q !in old(tree) && FileAt(tree, q)
      ensures !ok ==> forall q :: q in old(tree) ==> tree[q] == old(tree)[q]
    {
      left := {};
      var failed := MayFail();
      ok := !failed;
      if ok {
        PuttingFile(tree, p, content);
        tree := tree[p := File(content)];
      } else {
        left := LeaveTemp(Parent(p), Base(p));
      }
    }

    method LeaveTemp(dir: Path, base: string) returns (ghost left: set<Path>)
      requires Valid() && DirAt(tree, dir) && PlainName(base)
      modifies this`tree
      ensures Valid() && |left| <= 1 && tree.Keys == old(tree).Keys + left
      ensures forall q :: q in left ==> q !in old(tree) && FileAt(tree, q)
      ensures forall q :: q in old(tree) ==> tree[q] == old(tree)[q]
    {
      left := {};
      var suffix: string := *;
      var written: Bytes := *;
      var stays: bool := *;
      var temp := dir + [TempName(base, suffix)];
      if stays && '/' !in suffix && temp !in tree {
        TempIsPlain(base, suffix);
        assert Parent(temp) == dir && Plain(dir);
        PuttingFile(tree, temp, written);
        tree := tree[temp := File(written)];
        left := {temp};
      }
    }

    // ---- configvault.Store -------------------------------------------------

    method Get(id: string) returns (m: Option<Manifest>)
      requires Valid()
      modifies this`faults
      ensures m.Some? ==> id in snapshots && m.value == snapshots[id]
      ensures m.None? ==> id !in snapshots || faults > old(faults)
      ensures faults >= old(faults)
    {
      var failed := MayFail();
      m := if failed || id !in snapshots then None else Some(snapshots[id]);
    }

    method ReadArtifact(id: string, artifact: string) returns (r: Option<(Artifact, Bytes)>)
      requires Valid()
      modifies this`faults
      ensures faults >= old(faults)
      ensures r.Some? ==> id in snapshots && r.value.0 in snapshots[id].artifacts && r.value.0.id == artifact
      ensures r.Some? ==> Intact(r.value.0, objects, sha) && r.value.1 == objects[r.value.0.sha]
      ensures r.None? && faults == old(faults) && id in snapshots && UniqueIds(snapshots[id].artifacts) ==>
                forall a :: a in snapshots[id].artifacts && a.id == artifact ==> !Intact(a, objects, sha)
      // The first record of the id decides.
      ensures r.Some? ==>
        var arts := snapshots[id].artifacts;
        exists i :: 0 <= i < |arts| && arts[i] == r.value.0 && forall k :: 0 <= k < i ==> arts[k].id != artifact
      ensures r.Some? ==>
        r.value.0.size == |r.value.1| <= 2_097_152 && sha(r.value.1) == r.value.0.sha && IdPattern(artifact)
      ensures r.None? && faults == old(faults) && id in snapshots ==>
        var arts := snapshots[id].artifacts;
        forall i :: 0 <= i < |arts| && arts[i].id == artifact && (forall k :: 0 <= k < i ==> arts[k].id != artifact) ==>
          || !IdPattern(artifact) || arts[i].size > 2_097_152 || arts[i].sha !in objects
          || sha(objects[arts[i].sha]) != arts[i].sha || |objects[arts[i].sha]| != arts[i].size
    {
      var m := Get(id);
      if m.None? { return None; }
      var arts := m.value.artifacts;
      var i := 0;
      while i < |arts| && arts[i].id != artifact
        invariant i <= |arts| && forall k :: 0 <= k < i ==> arts[k].id != artifact
      {
        i := i + 1;
      }
      if i == |arts| { return None; }
      var failed := MayFail();
      if failed || !Intact(arts[i], objects, sha) { return None; }
      r := Some((arts[i], objects[arts[i].sha]));
    }

    // Capture records the given paths under a fresh id and then prunes the
    // store: the oldest other snapshots may go, and with them the objects that
    // no remaining snapshot refers to. When pruning fails, the removal of the new
    // manifest may fail as well, and nobody is told.
    method Capture(component: string, paths: seq<Path>) returns (r: Option<Manifest>)
      requires Valid() && forall p :: p in paths ==> p != []
      modifies this`snapshots, this`objects, this`faults
      ensures Valid() && faults >= old(faults)
      ensures AddsOne(old(snapshots), snapshots, lastWorking)
      ensures r.None? && faults == old(faults) ==> snapshots == old(snapshots)
      ensures r.Some? ==> r.value.id !in old(snapshots) && r.value.id in snapshots && snapshots[r.value.id] == r.value
      ensures r.Some? ==> r.value.schema == SCHEMA_VERSION && r.value.component == component
      ensures r.Some? ==> CapturedFrom(r.value.artifacts, paths, artifactId, tree, sha)
      ensures r.Some? ==> forall a :: a in r.value.artifacts ==> Stored(a, objects, sha)
      ensures r.Some? ==> SortedById(r.value.artifacts) == r.value.artifacts
      ensures r.Some? ==> CanRecordAll(paths, artifactId, tree, old(objects), sha)
      ensures r.None? ==> faults > old(faults) || !CanRecordAll(paths, artifactId, tree, old(objects), sha)
      ensures ObjectsFrom(old(objects), objects, paths, tree, sha)
      ensures forall d :: d in old(objects) && Referenced(snapshots, d) ==> d in objects
    {
      ghost var o0 := objects;
      assert snapshots.Keys - snapshots.Keys == {};
      var records := RecordAll(paths);
      if records.None? { return None; }
      RecordsAreCapture(records.value, paths, artifactId, tree, sha, IdBefore);
      SortKeeps(records.value, IdBefore);
      SortedTwice(records.value);
      ghost var o1 := objects;
      r := Save(component, SortedById(records.value));
      assert forall d :: d in objects ==> d in o1 && objects[d] == o1[d];
    }

    // The manifest under a fresh id.
    method Save(component: string, artifacts: seq<Artifact>) returns (r: Option<Manifest>)
      requires Valid() && forall a :: a in artifacts ==> Stored(a, objects, sha)
      modifies this`snapshots, this`objects, this`faults
      ensures Valid() && faults >= old(faults) && (r.None? ==> faults > old(faults))
      ensures AddsOne(old(snapshots), snapshots, lastWorking)
      ensures r.Some? ==> r.value.id !in old(snapshots) && r.value.id in snapshots && snapshots[r.value.id] == r.value
      ensures r.Some? ==> r.value == Manifest(SCHEMA_VERSION, r.value.id, component, r.value.created, artifacts)
      ensures r.Some? ==> forall a :: a in artifacts ==> Stored(a, objects, sha)
      ensures forall d :: d in objects ==> d in old(objects) && objects[d] == old(objects)[d]
      ensures forall d :: d in old(objects) && Referenced(snapshots, d) ==> d in objects
    {
      assert snapshots.Keys - snapshots.Keys == {};
      var id := FreshId();
      if id.None? { return None; }
      var now: int := *;
      var m := Manifest(SCHEMA_VERSION, id.value, component, now, artifacts);
      ghost var s0 := snapshots;
      ghost var gone;
      var published;
      published, gone := Publish(m);
      OneAdded(s0, snapshots, m, lastWorking, gone);
      if !published { return None; }
      forall a | a in m.artifacts ensures Stored(a, objects, sha) {
        assert Referenced(snapshots, a.sha);
      }
      r := Some(m);
    }

    // Clock and random bytes; an id that is taken counts as their failure.
    method FreshId() returns (id: Option<string>)
      modifies this`faults
      ensures faults >= old(faults)
      ensures id.Some? ==> id.value !in snapshots
      ensures id.None? ==> faults > old(faults)
    {
      var made: string := *;
      var failed := MayFail();
      if failed { return None; }
      if made in snapshots {
        faults := faults + 1;
        return None;
      }
      id := Some(made);
    }

    method RecordAll(paths: seq<Path>) returns (r: Option<seq<Artifact>>)
      requires Valid() && forall p :: p in paths ==> p != []
      modifies this`objects, this`faults
      ensures faults >= old(faults)
      ensures r.Some? ==> Recorded(r.value, paths, |paths|, artifactId, tree, sha)
      ensures r.Some? ==> forall a :: a in r.value ==> Stored(a, objects, sha)
      ensures r.Some? ==> CanRecordAll(paths, artifactId, tree, old(objects), sha)
      ensures r.None? ==> faults > old(faults) || !CanRecordAll(paths, artifactId, tree, old(objects), sha)
      ensures ObjectsFrom(old(objects), objects, paths, tree, sha) && old(objects).Keys <= objects.Keys
    {
      var seen: set<string> := {};
      var records: seq<Artifact> := [];
      ghost var o0 := objects;
      for i := 0 to |paths|
        invariant faults >= old(faults) && Recorded(records, paths, i, artifactId, tree, sha)
        invariant seen == IdsOf(records)
        invariant forall a :: a in records ==> Stored(a, objects, sha)
        invariant forall k :: 0 <= k < i ==> CanRecord(paths[k], artifactId(paths[k]), tree, o0, sha)
        invariant ObjectsFrom(o0, objects, paths, tree, sha) && o0.Keys <= objects.Keys
      {
        var id := artifactId(paths[i]);
        if id in seen {
          RepeatedId(records, paths, i, artifactId, tree, sha);
          return None;
        }
        assert paths[i] in paths;
        ghost var o1 := objects;
        var record := RecordOne(paths[i], id);
        MoreObjects(o0, o1, objects, paths, paths[i], id, tree, sha);
        if record.None? { return None; }
        RecordNext(records, paths, i, artifactId, tree, sha);
        seen := seen + {id};
        records := records + [record.value];
      }
      RecordedIds(records, paths, artifactId, tree, sha);
      r := Some(records);
    }

    method RecordOne(p: Path, id: string) returns (r: Option<Artifact>)
      requires Valid() && p != []
      modifies this`objects, this`faults
      ensures faults >= old(faults)
      ensures AddsObject(old(objects), objects, p, tree, sha)
      ensures r.Some? ==> Capturable(tree, p) && r.value == RecordOf(tree, p, id, sha) && Stored(r.value, objects, sha)
      ensures r.Some? ==> CanRecord(p, id, tree, old(objects), sha)
      ensures r.None? ==> faults > old(faults) || !CanRecord(p, id, tree, old(objects), sha)
    {
      IdIsListed(id);
      if FileAt(tree, Trimmed(p)) { FileIsCapturable(tree, p); }
      if !IdPattern(id) { return None; }
      var failed := MayFail();
      if failed || !Capturable(tree, p) { return None; }
      var record := RecordOf(tree, p, id, sha);
      if record.size > MAX_ARTIFACT_BYTES { return None; }
      var stored := StoreObject(record.sha, tree[record.path].content);
      if stored { r := Some(record); } else { r := None; }
    }

    // ensureObject: an existing object has its digest checked and nothing
    // else, a missing one is written.
    method StoreObject(d: Digest, content: Bytes) returns (ok: bool)
      requires sha(content) == d
      modifies this`objects, this`faults
      ensures faults >= old(faults)
      ensures forall e :: e in old(objects) ==> e in objects && objects[e] == old(objects)[e]
      ensures forall e :: e in objects && e !in old(objects) ==> e == d && objects[e] == content
      ensures ok ==> d in objects && sha(objects[d]) == d
      ensures !ok ==> faults > old(faults) || (d in objects && sha(objects[d]) != d)
    {
      var failed := MayFail();
      if failed { return false; }
      if d in objects { return sha(objects[d]) == d; }
      objects := objects[d := content];
      ok := true;
    }

    // gcObjects removes what no snapshot refers to; it may stop half-way.
    method CollectObjects() returns (ok: bool)
      modifies this`objects, this`faults
      ensures faults >= old(faults) && (!ok ==> faults > old(faults))
      ensures Pruned(snapshots, old(objects), snapshots, objects)
      ensures ok ==> forall d :: d in objects ==> Referenced(snapshots, d)
    {
      var failed := MayFail();
      var missed: set<Digest> := *;
      objects := map d | d in objects && (Referenced(snapshots, d) || (failed && d in missed)) :: objects[d];
      ok := !failed;
    }

    method RemoveVictim(victim: string) returns (ok: bool, removed: bool)
      requires Valid() && victim in snapshots
      modifies this`snapshots, this`objects, this`faults
      ensures Valid() && faults >= old(faults) && (!ok ==> faults > old(faults)) && (ok ==> removed)
      ensures Pruned(old(snapshots), old(objects), snapshots, objects)
      ensures snapshots == if removed then old(snapshots) - {victim} else old(snapshots)
    {
      ghost var s0, o0 := snapshots, objects;
      WithoutOne(s0, o0, victim);
      var failed := MayFail();
      if failed { return false, false; }
      snapshots := snapshots - {victim};
      ok := CollectObjects();
      PrunedFurther(s0, o0, snapshots, o0, snapshots, objects);
      removed := true;
    }

    // List: newest first, and by id where the instants agree.
    method List() returns (ids: Option<seq<string>>)
      modifies this`faults
      ensures faults >= old(faults) && (ids.None? ==> faults > old(faults))
      ensures ids.Some? ==> Lists(ids.value, snapshots.Keys) && Sorted(ids.value, Newer(snapshots))
      ensures ids.Some? ==> forall i, j :: 0 <= i < j < |ids.value| ==>
        && ids.value[i] in snapshots && ids.value[j] in snapshots
        && var a, b := snapshots[ids.value[i]].created, snapshots[ids.value[j]].created;
           a > b || (a == b && Less(ids.value[j], ids.value[i]))
    {
      var failed := MayFail();
      if failed { return None; }
      var order := ReadDir();
      ListingSorted(snapshots, order);
      ids := Some(Sort(order, Newer(snapshots)));
      ListingInFields(snapshots, ids.value);
    }

    // The snapshots in the order of the directory.
    method ReadDir() returns (order: seq<string>)
      ensures Lists(order, snapshots.Keys)
    {
      var todo := snapshots.Keys;
      ghost var done: set<string> := {};
      order := [];
      while todo != {}
        invariant done + todo == snapshots.Keys && done !! todo && Lists(order, done)
        decreases todo
      {
        var id :| id in todo;
        ListsOneMore(order, done, id);
        todo, order, done := todo - {id}, order + [id], done + {id};
      }
      assert done == snapshots.Keys;
    }

    // The scan from the oldest on.
    method FindVictim(ids: seq<string>, kept: string) returns (victim: Option<string>)
      requires Lists(ids, snapshots.Keys) && Sorted(ids, Newer(snapshots))
      ensures victim.Some? ==> Oldest(snapshots, kept, lastWorking, victim.value)
      ensures victim.None? ==> Others(snapshots, kept, lastWorking) == {}
    {
      var i := |ids|;
      while i > 0
        invariant 0 <= i <= |ids| && forall j :: i <= j < |ids| ==> ids[j] == kept || ids[j] == lastWorking
      {
        i := i - 1;
        if ids[i] != kept && ids[i] != lastWorking {
          LastIsOldest(snapshots, ids, kept, lastWorking, i);
          return Some(ids[i]);
        }
      }
      assert forall id :: id in ids ==> id == kept || id == lastWorking;
      victim := None;
    }

    // prune removes the oldest other snapshot until there are few enough and the
    // store is small enough. Finding no more to remove counts as a failing call.
    method Prune(kept: string) returns (ok: bool, ghost gone: nat)
      requires Valid()
      modifies this`snapshots, this`objects, this`faults
      ensures Valid() && faults >= old(faults) && (!ok ==> faults > old(faults))
      ensures Pruned(old(snapshots), old(objects), snapshots, objects)
      ensures OldestGone(old(snapshots), snapshots, kept, lastWorking, gone)
      ensures ok ==> |snapshots| <= maxSnapshots && forall d :: d in objects ==> Referenced(snapshots, d)
      ensures forall id :: id in snapshots ==> id in old(snapshots) && snapshots[id] == old(snapshots)[id]
      // What has gone is neither kept nor the last working one, and was created
      // no later than whatever else stays.
      ensures forall id :: id in old(snapshots) && id !in snapshots ==>
        && id != kept && id != lastWorking
        && forall other :: other in snapshots && other != kept && other != lastWorking ==>
             || old(snapshots)[id].created < snapshots[other].created
             || (old(snapshots)[id].created == snapshots[other].created && Less(id, other))
      // No object goes that a snapshot refers to, and none is new.
      ensures forall d :: d in objects ==> d in old(objects) && objects[d] == old(objects)[d]
      ensures forall id, a :: id in snapshots && a in snapshots[id].artifacts && a.sha in old(objects) ==> a.sha in objects
      ensures ok ==> forall d :: d in objects ==> exists id :: id in snapshots && exists a :: a in snapshots[id].artifacts && a.sha == d
    {
      ghost var s0 := snapshots;
      ok, gone := PruneAll(kept);
      GoneInFields(s0, snapshots, kept, lastWorking, gone);
    }

    method PruneAll(kept: string) returns (ok: bool, ghost gone: nat)
      requires Valid()
      modifies this`snapshots, this`objects, this`faults
      ensures Valid() && faults >= old(faults) && (!ok ==> faults > old(faults))
      ensures Pruned(old(snapshots), old(objects), snapshots, objects)
      ensures OldestGone(old(snapshots), snapshots, kept, lastWorking, gone)
      ensures ok ==> |snapshots| <= maxSnapshots && forall d :: d in objects ==> Referenced(snapshots, d)
    {
      ghost var s0, o0 := snapshots, objects;
      gone := 0;
      NoneGone(snapshots, kept, lastWorking);
      while true
        invariant Valid() && faults >= old(faults) && Pruned(s0, o0, snapshots, objects)
        invariant OldestGone(s0, snapshots, kept, lastWorking, gone)
        decreases |snapshots|
      {
        ghost var s1, o1 := snapshots, objects;
        var over, removed;
        over, ok, removed := PruneRound(kept, s0, gone);
        PrunedFurther(s0, o0, s1, o1, snapshots, objects);
        gone := gone + if removed then 1 else 0;
        if over { return ok, gone; }
      }
    }

    // One round of the loop.
    method PruneRound(kept: string, ghost s0: map<string, Manifest>, ghost gone: nat) returns (over: bool, ok: bool, removed: bool)
      requires Valid() && OldestGone(s0, snapshots, kept, lastWorking, gone)
      modifies this`snapshots, this`objects, this`faults
      ensures Valid() && faults >= old(faults) && Pruned(old(snapshots), old(objects), snapshots, objects)
      ensures OldestGone(s0, snapshots, kept, lastWorking, gone + if removed then 1 else 0)
      ensures !over ==> |snapshots| < |old(snapshots)|
      ensures over && !ok ==> faults > old(faults)
      ensures over && ok ==> |snapshots| <= maxSnapshots && forall d :: d in objects ==> Referenced(snapshots, d)
    {
      var ids := List();
      if ids.None? { return true, false, false; }
      var failed := MayFail();
      if failed { return true, false, false; }
      var small: bool := *;
      if |ids.value| <= maxSnapshots && small {
        ListsSize(ids.value, snapshots.Keys);
        ok := CollectObjects();
        return true, ok, false;
      }
      ok, removed := RemoveOldest(ids.value, kept, s0, gone);
      over := !ok;
    }

    method RemoveOldest(ids: seq<string>, kept: string, ghost s0: map<string, Manifest>, ghost gone: nat) returns (ok: bool, removed: bool)
      requires Valid() && Lists(ids, snapshots.Keys) && Sorted(ids, Newer(snapshots))
      requires OldestGone(s0, snapshots, kept, lastWorking, gone)
      modifies this`snapshots, this`objects, this`faults
      ensures Valid() && faults >= old(faults) && (!ok ==> faults > old(faults))
      ensures Pruned(old(snapshots), old(objects), snapshots, objects)
      ensures OldestGone(s0, snapshots, kept, lastWorking, gone + if removed then 1 else 0)
      ensures ok ==> removed && |snapshots| < |old(snapshots)|
    {
      ghost var s1 := snapshots;
      var victim := FindVictim(ids, kept);
      if victim.None? {
        faults := faults + 1;
        return false, false;
      }
      ok, removed := RemoveVictim(victim.value);
      GoneAfter(s0, s1, snapshots, kept, lastWorking, gone, victim.value, removed);
    }

    // Write the manifest and prune; when pruning fails, try to take it back.
    method Publish(m: Manifest) returns (ok: bool, ghost gone: nat)
      requires Valid() && m.id !in snapshots
      modifies this`snapshots, this`objects, this`faults
      ensures Valid() && faults >= old(faults) && (!ok ==> faults > old(faults))
      ensures Pruned(old(snapshots)[m.id := m], old(objects), snapshots, objects)
      ensures OldestGone(old(snapshots)[m.id := m], snapshots[m.id := m], m.id, lastWorking, gone)
      ensures ok ==> m.id in snapshots && |snapshots| <= maxSnapshots && forall d :: d in objects ==> Referenced(snapshots, d)
    {
      ghost var s0, o0 := snapshots[m.id := m], objects;
      gone := 0;
      var failed := MayFail();
      if failed {
        WithoutOne(s0, o0, m.id);
        assert s0 - {m.id} == snapshots;
        NoneGone(s0, m.id, lastWorking);
        return false, gone;
      }
      snapshots := snapshots[m.id := m];
      ok, gone := Prune(m.id);
      assert m.id in snapshots by { assert m.id !in s0.Keys - snapshots.Keys; }
      assert snapshots[m.id := m] == snapshots;
      if !ok { TakeBack(m, s0, o0); }
    }

    // Both errors of the clean-up are ignored.
    method TakeBack(m: Manifest, ghost s0: map<string, Manifest>, ghost o0: map<Digest, Bytes>)
      requires Valid() && Pruned(s0, o0, snapshots, objects)
      modifies this`snapshots, this`objects, this`faults
      ensures Valid() && faults >= old(faults) && Pruned(s0, o0, snapshots, objects)
      ensures snapshots[m.id := m] == old(snapshots)[m.id := m]
    {
      ghost var s1, o1 := snapshots, objects;
      var failed := MayFail();
      if !failed { snapshots := snapshots - {m.id}; }
      WithoutOne(s1, o1, m.id);
      ghost var s2 := snapshots;
      assert Pruned(s1, o1, s2, o1);
      PrunedFurther(s0, o0, s1, o1, s2, o1);
      var collected := CollectObjects();
      PrunedFurther(s0, o0, s2, o1, snapshots, objects);
    }
  }
}
