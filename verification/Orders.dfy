// Cuts and sorting under a strict total order. Go's sort.Slice is a library
// call: any sort agrees with this one when no two elements tie.

module Orders {

  ghost predicate StrictTotal<T(!new)>(before: (T, T) -> bool) {
    && (forall x :: !before(x, x))
    && (forall x, y, z :: before(x, y) && before(y, z) ==> before(x, z))
    && (forall x, y :: x == y || before(x, y) || before(y, x))
  }

  lemma SubsetSize<T>(a: set<T>, b: set<T>)
    requires a <= b
    ensures |a| <= |b|
    ensures |a| == |b| ==> a == b
  {
    assert b == a + (b - a);
    assert |b| == |a| + |b - a|;
  }

  // low holds the k first elements of s.
  ghost predicate IsCut<T>(s: set<T>, before: (T, T) -> bool, k: nat, low: set<T>) {
    low <= s && |low| == k && forall x, y :: x in low && y in s - low ==> before(x, y)
  }

  lemma CutIsUnique<T(!new)>(s: set<T>, before: (T, T) -> bool, k: nat, a: set<T>, b: set<T>)
    requires StrictTotal(before) && IsCut(s, before, k, a) && IsCut(s, before, k, b)
    ensures a == b
  {
    if a <= b {
      SubsetSize(a, b);
    } else {
      var x :| x in a && x !in b;
      forall y | y in b ensures y in a {
        assert y !in a ==> before(x, y);
        assert before(y, x) && !before(x, x);
      }
      SubsetSize(b, a);
    }
  }

  lemma CutsNest<T(!new)>(s: set<T>, before: (T, T) -> bool, k: nat, a: set<T>, n: nat, b: set<T>)
    requires StrictTotal(before) && IsCut(s, before, k, a) && IsCut(s, before, n, b) && k <= n
    ensures a <= b
  {
    if x :| x in a && x !in b {
      forall y | y in b ensures y in a {
        assert y !in a ==> before(x, y);
        assert before(y, x) && !before(x, x);
      }
      SubsetSize(b, a);
    }
  }

  // Taking minima one at a time is a cut.
  lemma CutGrows<T>(s: set<T>, before: (T, T) -> bool, k: nat, low: set<T>, m: T)
    requires IsCut(s, before, k, low) && m in s - low
    requires forall y :: y in s - low && y != m ==> before(m, y)
    ensures IsCut(s, before, k + 1, low + {m})
  {}

  lemma {:induction false} HasFirst<T(!new)>(s: set<T>, before: (T, T) -> bool) returns (m: T)
    requires StrictTotal(before) && s != {}
    ensures m in s && forall x :: x in s && x != m ==> before(m, x)
    decreases |s|
  {
    m :| m in s;
    if s - {m} == {} {
      forall x | x in s ensures x == m { assert x == m || x in s - {m}; }
    } else {
      var last := m;
      var n := HasFirst(s - {last}, before);
      assert before(n, last) || before(last, n);
      m := if before(n, last) then n else last;
      forall x | x in s && x != m ensures before(m, x) {
        assert x == last || x == n || before(n, x);
        assert m == last && before(n, x) ==> before(last, n) && before(last, x);
      }
    }
  }

  lemma {:induction false} CutExists<T(!new)>(s: set<T>, before: (T, T) -> bool, k: nat)
    requires StrictTotal(before) && k <= |s|
    ensures exists low :: IsCut(s, before, k, low)
  {
    if k == 0 {
      assert IsCut(s, before, 0, {});
    } else {
      CutExists(s, before, k - 1);
      var low :| IsCut(s, before, k - 1, low);
      assert |s - low| == |s| - |low|;
      var m := HasFirst(s - low, before);
      CutGrows(s, before, k - 1, low, m);
    }
  }

  // The k first elements of s.
  ghost function First<T(!new)>(s: set<T>, before: (T, T) -> bool, k: nat): (low: set<T>)
    requires StrictTotal(before) && k <= |s|
    ensures IsCut(s, before, k, low)
  {
    CutExists(s, before, k);
    var low :| IsCut(s, before, k, low);
    low
  }

  // ---- sorting -------------------------------------------------------------

  function Insert<T>(x: T, s: seq<T>, before: (T, T) -> bool): seq<T> {
    if s == [] || before(x, s[0]) then [x] + s else [s[0]] + Insert(x, s[1..], before)
  }

  function Sort<T>(s: seq<T>, before: (T, T) -> bool): seq<T> {
    if s == [] then [] else Insert(s[0], Sort(s[1..], before), before)
  }

  ghost predicate Sorted<T>(s: seq<T>, before: (T, T) -> bool) {
    forall i, j :: 0 <= i < j < |s| ==> !before(s[j], s[i])
  }

  // A strict weak order: what sort.Slice asks of its comparison.
  ghost predicate StrictWeak<T(!new)>(before: (T, T) -> bool) {
    && (forall x, y :: before(x, y) ==> !before(y, x))
    && (forall x, y, z :: !before(x, y) && !before(y, z) ==> !before(x, z))
  }

  lemma {:induction false} InsertKeeps<T>(x: T, s: seq<T>, before: (T, T) -> bool)
    ensures multiset(Insert(x, s, before)) == multiset(s) + multiset{x}
  {
    if s == [] || before(x, s[0]) {
    } else {
      InsertKeeps(x, s[1..], before);
      assert s == [s[0]] + s[1..];
    }
  }

  lemma {:induction false} SortPermutes<T>(s: seq<T>, before: (T, T) -> bool)
    ensures multiset(Sort(s, before)) == multiset(s)
  {
    if s != [] {
      SortPermutes(s[1..], before);
      InsertKeeps(s[0], Sort(s[1..], before), before);
      assert s == [s[0]] + s[1..];
    }
  }

  lemma SortKeeps<T>(s: seq<T>, before: (T, T) -> bool)
    ensures multiset(Sort(s, before)) == multiset(s)
    ensures |Sort(s, before)| == |s|
    ensures forall x :: x in Sort(s, before) <==> x in s
  {
    var t := Sort(s, before);
    SortPermutes(s, before);
    assert |multiset(t)| == |multiset(s)|;
    SameMembers(t, s);
  }

  lemma SameMembers<T>(s: seq<T>, t: seq<T>)
    requires multiset(s) == multiset(t)
    ensures forall x :: x in s <==> x in t
  {
    forall x ensures x in s <==> x in t {
      assert x in multiset(s) <==> x in multiset(t);
    }
  }

  lemma {:induction false} InsertSorted<T(!new)>(x: T, s: seq<T>, before: (T, T) -> bool)
    requires StrictWeak(before) && Sorted(s, before)
    ensures Sorted(Insert(x, s, before), before)
  {
    if s == [] {
    } else if before(x, s[0]) {
      forall j | 0 <= j < |s| ensures !before(s[j], x) {
        var y, z := s[j], s[0];
        assert j == 0 || !before(y, z);
        assert !before(x, y) && !before(y, z) ==> !before(x, z);
      }
    } else {
      InsertSorted(x, s[1..], before);
      InsertKeeps(x, s[1..], before);
      var t := Insert(x, s[1..], before);
      forall j | 0 <= j < |t| ensures !before(t[j], s[0]) {
        assert t[j] in multiset(t);
        assert t[j] == x || t[j] in s[1..];
      }
    }
  }

  lemma {:induction false} SortSorts<T(!new)>(s: seq<T>, before: (T, T) -> bool)
    requires StrictWeak(before)
    ensures Sorted(Sort(s, before), before)
  {
    if s != [] {
      SortSorts(s[1..], before);
      InsertSorted(s[0], Sort(s[1..], before), before);
    }
  }

  // The elements of a set, each once, in some order.
  ghost predicate Lists<T(!new)>(order: seq<T>, s: set<T>) {
    Distinct(order) && forall x :: x in order <==> x in s
  }

  lemma {:induction false} Listing<T(!new)>(s: set<T>) returns (order: seq<T>)
    ensures Lists(order, s)
    decreases s
  {
    order := [];
    if s != {} {
      var x :| x in s;
      var rest := Listing(s - {x});
      order := rest + [x];
    }
  }

  ghost predicate Distinct<T>(s: seq<T>) {
    forall i, j :: 0 <= i < j < |s| ==> s[i] != s[j]
  }

  lemma {:induction false} DistinctCounts<T>(s: seq<T>)
    ensures Distinct(s) <==> forall x :: multiset(s)[x] <= 1
  {
    if !Distinct(s) {
      var i, j :| 0 <= i < j < |s| && s[i] == s[j];
      assert s == s[..j] + s[j..];
      assert s[i] in s[..j] && s[j] in s[j..];
      assert multiset(s)[s[j]] == multiset(s[..j])[s[j]] + multiset(s[j..])[s[j]];
    } else if s != [] {
      DistinctCounts(s[1..]);
      assert s == [s[0]] + s[1..];
      assert s[0] !in s[1..];
      assert multiset(s[1..])[s[0]] == 0;
    }
  }

  lemma SortDistinct<T>(s: seq<T>, before: (T, T) -> bool)
    requires Distinct(s)
    ensures Distinct(Sort(s, before))
  {
    SortKeeps(s, before);
    DistinctCounts(s);
    DistinctCounts(Sort(s, before));
  }

  lemma {:induction false} DistinctSetSize<T>(s: seq<T>)
    requires Distinct(s)
    ensures |set x | x in s| == |s|
  {
    if s != [] {
      DistinctSetSize(s[1..]);
      assert (set x | x in s) == {s[0]} + (set x | x in s[1..]);
    }
  }

  // A prefix of a sorted sequence without repetition is a cut.
  lemma PrefixIsCut<T(!new)>(s: seq<T>, before: (T, T) -> bool, k: nat)
    requires StrictTotal(before) && Distinct(s) && Sorted(s, before) && k <= |s|
    ensures IsCut((set x | x in s), before, k, (set x | x in s[..k]))
  {
    var all := set x | x in s;
    var low := set x | x in s[..k];
    DistinctSetSize(s[..k]);
    forall x, y | x in low && y in all - low ensures before(x, y) {
      var i :| 0 <= i < k && s[i] == x;
      var j :| 0 <= j < |s| && s[j] == y;
      assert s[j] !in s[..k] && forall n :: 0 <= n < k ==> s[..k][n] == s[n];
      assert !before(s[j], s[i]) && s[i] != s[j];
    }
  }

  lemma TotalIsWeak<T(!new)>(before: (T, T) -> bool)
    requires StrictTotal(before)
    ensures StrictWeak(before)
  {
    forall x, y, z | !before(x, y) && !before(y, z) ensures !before(x, z) {
      assert (x == y || before(y, x)) && (y == z || before(z, y));
      assert before(y, x) && before(x, z) ==> before(y, z);
    }
  }
}
