/** Sizzle's comparison of nodes for browsers without compareDocumentPosition, and uniqueSort built on it.
    All nodes belong to one tree whose root (the empty path) is the document. */
module DocumentOrder {
  import opened Dom
  import opened Wrappers

  function Nth<T>(s: seq<T>, i: nat): Option<T> {
    if i < |s| then Some(s[i]) else None
  }

  /** Document order decided at the first level where the two ancestor chains part. */
  lemma {:induction false} BeforeAtDivergence(p: Path, q: Path, k: nat)
    requires k <= |p| && k <= |q| && p[..k] == q[..k]
    requires k == |p| || k == |q| || p[k] != q[k]
    ensures Before(p, q) <==> k < |q| && (k == |p| || p[k] < q[k])
    decreases k
  {
    if k > 0 {
      assert p[0] == p[..k][0] == q[..k][0] == q[0];
      assert p[1..][..k - 1] == p[..k][1..] == q[..k][1..] == q[1..][..k - 1];
      BeforeAtDivergence(p[1..], q[1..], k - 1);
    }
  }

  /** What siblingCheck is asked: two distinct children of one parent, or one missing node. */
  ghost predicate SiblingQuery(t: Node, a: Option<Path>, b: Option<Path>) {
    && (a.Some? || b.Some?)
    && (a.Some? ==> Has(t, a.value))
    && (b.Some? ==> Has(t, b.value))
    && (a.Some? && b.Some? ==>
          a.value != [] && b.value != [] && a.value != b.value && Parent(a.value) == Parent(b.value))
  }

  /** siblingCheck without the sourceIndex shortcut: walk nextSibling from a, looking for b. */
  method SiblingCheck(t: Node, a: Option<Path>, b: Option<Path>) returns (r: int)
    requires SiblingQuery(t, a, b)
    ensures r == -1 || r == 1
    ensures r == -1 <==> a.None? || (b.Some? && Before(a.value, b.value))
  {
    if a.Some? && b.Some? {
      HasKidOf(t, a.value);
      ghost var base := a.value[..|a.value| - 1];
      ghost var n, kids := |base|, |At(t, base).kids|;
      assert b.value[..n] == base;
      BeforeAtDivergence(a.value, b.value, n);
      HasKidOf(t, b.value);
      SiblingsDiffer(a.value, b.value);
      HasKid(t, base, a.value[n] + 1);
      var cur := NextSibling(t, a.value);
      while cur.Some?
        invariant cur.Some? ==> Has(t, cur.value) && |cur.value| == n + 1 && cur.value[..n] == base
        invariant cur.Some? ==> a.value[n] < cur.value[n]
        invariant a.value[n] < b.value[n] ==> cur.Some? && cur.value[n] <= b.value[n]
        invariant Has(t, base) && kids == |At(t, base).kids|
        decreases if cur.Some? then kids - cur.value[n] else -1
      {
        HasKidOf(t, cur.value);
        if cur == b { return -1; }
        SiblingsDiffer(cur.value, b.value);
        HasKid(t, base, cur.value[n] + 1);
        cur := NextSibling(t, cur.value);
      }
    }
    return if a.Some? then 1 else -1;
  }

  lemma HasKidOf(t: Node, p: Path)
    requires Has(t, p) && p != []
    ensures Has(t, p[..|p| - 1]) && p[|p| - 1] < |At(t, p[..|p| - 1]).kids|
  {
    assert p == p[..|p| - 1] + [p[|p| - 1]];
    HasKid(t, p[..|p| - 1], p[|p| - 1]);
  }

  lemma SiblingsDiffer(p: Path, q: Path)
    requires p != [] && |p| == |q| && p[..|p| - 1] == q[..|q| - 1] && p != q
    ensures p[|p| - 1] != q[|q| - 1]
  {
    assert p == p[..|p| - 1] + [p[|p| - 1]];
    assert q == q[..|q| - 1] + [q[|q| - 1]];
  }

  /** The chain of nodes from the root down to a, collected by walking parentNode and unshifting. */
  method AncestorPath(a: Path) returns (ap: seq<Path>)
    ensures |ap| == |a| + 1 && forall k :: 0 <= k <= |a| ==> ap[k] == a[..k]
  {
    ap := [a];
    var cur := Parent(a);
    while cur.Some?
      invariant 1 <= |ap| <= |a| + 1
      invariant forall k :: 0 <= k < |ap| ==> ap[k] == a[..|a| + 1 - |ap| + k]
      invariant if |ap| == |a| + 1 then cur.None? else cur == Some(a[..|a| - |ap|])
      decreases |a| + 1 - |ap|
    {
      ghost var m := |a| - |ap|;
      assert m > 0 ==> a[..m][..m - 1] == a[..m - 1];
      ap := [cur.value] + ap;
      cur := Parent(cur.value);
    }
  }

  /** The place of p in the preorder traversal. */
  ghost function Position(t: Node, p: Path): (k: int)
    ensures Has(t, p) ==> 0 <= k < |Preorder(t)| && Preorder(t)[k] == p
  {
    PreorderComplete(t, p);
    if p in Preorder(t) then (var k :| 0 <= k < |Preorder(t)| && Preorder(t)[k] == p; k) else -1
  }

  /** Document order on paths is the order of the preorder traversal. */
  lemma PositionOrder(t: Node, a: Path, b: Path)
    requires Has(t, a) && Has(t, b)
    ensures Before(a, b) <==> Position(t, a) < Position(t, b)
    ensures a == b <==> Position(t, a) == Position(t, b)
  {
    var ps, i, j := Preorder(t), Position(t, a), Position(t, b);
    PreorderIncreasing(t);
    BeforeTotal(a, b);
    assert i < j ==> Before(ps[i], ps[j]);
    assert j < i ==> Before(ps[j], ps[i]);
  }

  ghost predicate Nodes(t: Node, ps: seq<Path>) {
    forall i :: 0 <= i < |ps| ==> Has(t, ps[i])
  }

  ghost predicate Sorted(key: Path -> int, ps: seq<Path>) {
    forall i, j :: 0 <= i < j < |ps| ==> key(ps[i]) <= key(ps[j])
  }

  ghost predicate StrictlySorted(key: Path -> int, ps: seq<Path>) {
    forall i, j :: 0 <= i < j < |ps| ==> key(ps[i]) < key(ps[j])
  }

  class Sorter {
    const tree: Node
    /** Does the native sort hand equal elements to the comparison? */
    const detectDuplicates: bool
    var hasDuplicate: bool
    var results: seq<Path>

    constructor (tree: Node, detectDuplicates: bool, results: seq<Path>)
      ensures this.tree == tree && this.detectDuplicates == detectDuplicates && this.results == results
    {
      this.tree, this.detectDuplicates, this.results := tree, detectDuplicates, results;
      hasDuplicate := false;
    }

    /** sortOrder: negative, zero or positive as a precedes, is, or follows b in the preorder traversal. */
    method SortOrder(a: Path, b: Path) returns (r: int)
      requires Has(tree, a) && Has(tree, b)
      modifies `hasDuplicate
      ensures r < 0 <==> Position(tree, a) < Position(tree, b)
      ensures r > 0 <==> Position(tree, a) > Position(tree, b)
      ensures r == 0 <==> a == b
      ensures hasDuplicate == (old(hasDuplicate) || a == b)
    {
      BeforeTotal(a, b);
      PositionOrder(tree, a, b);
      PositionOrder(tree, b, a);
      var aup, bup := Parent(a), Parent(b);
      if a == b {
        hasDuplicate := true;
        return 0;
      } else if aup.None? || bup.None? {
        return if a == [] then -1 else if b == [] then 1 else if aup.Some? then -1 else if bup.Some? then 1 else 0;
      } else if aup == bup {
        r := SiblingCheck(tree, Some(a), Some(b));
        return;
      }
      var ap := AncestorPath(a);
      var bp := AncestorPath(b);
      var i := 0;
      while Nth(ap, i) == Nth(bp, i)
        invariant i <= |ap| && i <= |bp|
        invariant i > 0 ==> a[..i - 1] == b[..i - 1]
        decreases |ap| - i
      {
        assert ap[|a|] == a && bp[|b|] == b;
        i := i + 1;
      }
      assert ap[0] == bp[0] == [];
      SplitQuery(tree, a, b, i);
      BeforeAtDivergence(a, b, i - 1);
      if i > 0 {
        r := SiblingCheck(tree, Nth(ap, i), Nth(bp, i));
      } else {
        // no common ancestor: not reached within one document
        r := 0;
      }
    }

    /** The model's native sort: insertion sort by SortOrder. */
    method Sort()
      requires Nodes(tree, results)
      modifies `results, `hasDuplicate
      ensures Nodes(tree, results) && Sorted(Key(tree), results)
      ensures multiset(results) == multiset(old(results))
      ensures !hasDuplicate ==> StrictlySorted(Key(tree), results)
    {
      ghost var key := Key(tree);
      var input := results;
      var out: seq<Path> := [];
      var n := 0;
      while n < |input|
        invariant 0 <= n <= |input|
        invariant multiset(out) == multiset(input[..n])
        invariant Nodes(tree, out) && Sorted(key, out)
        invariant !hasDuplicate ==> StrictlySorted(key, out)
      {
        assert input[..n + 1] == input[..n] + [input[n]];
        out := Insert(out, input[n]);
        n := n + 1;
      }
      assert input[..n] == input;
      results := out;
    }

    method Insert(out: seq<Path>, x: Path) returns (r: seq<Path>)
      requires Has(tree, x) && Nodes(tree, out) && Sorted(Key(tree), out)
      modifies `hasDuplicate
      ensures Nodes(tree, r) && Sorted(Key(tree), r)
      ensures multiset(r) == multiset(out) + multiset{x}
      ensures old(hasDuplicate) ==> hasDuplicate
      ensures !hasDuplicate && StrictlySorted(Key(tree), out) ==> StrictlySorted(Key(tree), r)
    {
      ghost var key := Key(tree);
      var j := |out|;
      while j > 0
        invariant 0 <= j <= |out|
        invariant forall k :: j <= k < |out| ==> key(x) < key(out[k])
        invariant old(hasDuplicate) ==> hasDuplicate
      {
        PositionOrder(tree, out[j - 1], x);
        var c := SortOrder(out[j - 1], x);
        if c <= 0 { break; }
        j := j - 1;
      }
      r := out[..j] + [x] + out[j..];
      InsertAt(key, out, x, j);
      InsertKeeps(tree, out, x, j);
    }

    /** uniqueSort: sort in place, then splice out repeated neighbours. */
    method UniqueSort()
      requires Nodes(tree, results)
      modifies `results, `hasDuplicate
      ensures StrictlySorted(Key(tree), results)
      ensures forall p :: p in results <==> p in old(results)
    {
      hasDuplicate := !detectDuplicates;
      Sort();
      SameMembers(old(results), results);
      if hasDuplicate {
        InjectiveKey(tree, results);
        var duplicates := FindDuplicates();
        SpliceDuplicates(duplicates, Key(tree));
      }
    }

    /** The first loop of uniqueSort: collect the indices of repeated neighbours. */
    method FindDuplicates() returns (duplicates: seq<nat>)
      ensures Marks(results, duplicates, if |results| == 0 then 1 else |results|)
    {
      duplicates := [];
      var i := 1;
      while i < |results|
        invariant 1 <= i && (i <= |results| || duplicates == [])
        invariant Marks(results, duplicates, i)
      {
        if results[i] == results[i - 1] {
          duplicates := duplicates + [i];
        }
        i := i + 1;
      }
    }

    /** The second: splice them out, last first. */
    method SpliceDuplicates(duplicates: seq<nat>, ghost key: Path -> int)
      requires Marks(results, duplicates, if |results| == 0 then 1 else |results|)
      requires Sorted(key, results) && Injective(key, results)
      modifies `results
      ensures StrictlySorted(key, results)
      ensures forall p :: p in results <==> p in old(results)
    {
      ghost var sorted := results;
      NothingSpliced(key, sorted, duplicates);
      var j := |duplicates|;
      while j > 0
        invariant 0 <= j <= |duplicates|
        invariant Spliced(key, results, sorted, duplicates, j)
      {
        j := j - 1;
        var at := duplicates[j];
        SpliceStep(key, results, sorted, duplicates, j);
        results := results[..at] + results[at + 1..];
      }
      SplicedAll(key, results, sorted, duplicates);
    }
  }

  ghost function Key(t: Node): Path -> int {
    p => Position(t, p)
  }

  /** key tells the members of s apart. */
  ghost predicate Injective(key: Path -> int, s: seq<Path>) {
    forall i, j :: 0 <= i < |s| && 0 <= j < |s| && key(s[i]) == key(s[j]) ==> s[i] == s[j]
  }

  lemma InjectiveKey(t: Node, s: seq<Path>)
    requires Nodes(t, s)
    ensures Injective(Key(t), s)
  {
    var key := Key(t);
    forall i, j | 0 <= i < |s| && 0 <= j < |s| && key(s[i]) == key(s[j]) ensures s[i] == s[j] {
      PositionOrder(t, s[i], s[j]);
    }
  }

  lemma InsertAt(key: Path -> int, out: seq<Path>, x: Path, j: nat)
    requires j <= |out| && Sorted(key, out)
    requires forall k :: j <= k < |out| ==> key(x) < key(out[k])
    requires j > 0 ==> key(out[j - 1]) <= key(x)
    ensures Sorted(key, out[..j] + [x] + out[j..])
    ensures StrictlySorted(key, out) && (j > 0 ==> key(out[j - 1]) < key(x)) ==>
              StrictlySorted(key, out[..j] + [x] + out[j..])
  {
    var r := out[..j] + [x] + out[j..];
    forall i, k | 0 <= i < k < |r|
      ensures key(r[i]) <= key(r[k])
      ensures StrictlySorted(key, out) && (j > 0 ==> key(out[j - 1]) < key(x)) ==> key(r[i]) < key(r[k])
    {
      assert r[i] == if i < j then out[i] else if i == j then x else out[i - 1];
      assert r[k] == if k < j then out[k] else if k == j then x else out[k - 1];
      if i < j == k {
        assert i == j - 1 || key(out[i]) <= key(out[j - 1]);
      }
    }
  }

  lemma InsertCounts(out: seq<Path>, x: Path, j: nat)
    requires j <= |out|
    ensures multiset(out[..j] + [x] + out[j..]) == multiset(out) + multiset{x}
  {
    assert out == out[..j] + out[j..];
  }

  lemma InsertKeeps(t: Node, out: seq<Path>, x: Path, j: nat)
    requires j <= |out| && Nodes(t, out) && Has(t, x)
    ensures Nodes(t, out[..j] + [x] + out[j..])
    ensures multiset(out[..j] + [x] + out[j..]) == multiset(out) + multiset{x}
  {
    InsertCounts(out, x, j);
    NodesJoin(t, out[..j], [x]);
    NodesJoin(t, out[..j] + [x], out[j..]);
  }

  lemma NodesJoin(t: Node, a: seq<Path>, b: seq<Path>)
    requires Nodes(t, a) && Nodes(t, b)
    ensures Nodes(t, a + b)
  {
  }

  /** The indices below i whose entry repeats its predecessor, in order. */
  ghost predicate Marks(s: seq<Path>, marks: seq<nat>, i: nat) {
    && (forall k :: 0 <= k < |marks| ==> 1 <= marks[k] < i && marks[k] < |s|)
    && (forall k, l :: 0 <= k < l < |marks| ==> marks[k] < marks[l])
    && (forall k :: 1 <= k < i && k < |s| ==> (k in marks <==> s[k] == s[k - 1]))
  }

  function Cut(s: seq<Path>, marks: seq<nat>, j: nat): nat {
    if j < |marks| then marks[j] else |s|
  }

  /** From the j-th mark on the list is free of repetitions; before it nothing has changed yet. */
  ghost predicate Spliced(key: Path -> int, r: seq<Path>, s: seq<Path>, marks: seq<nat>, j: nat) {
    var cut := Cut(s, marks, j);
    && Marks(s, marks, if |s| == 0 then 1 else |s|)
    && Sorted(key, r)
    && (forall p :: p in r <==> p in s)
    && cut <= |r|
    && (forall k :: 0 <= k < cut ==> r[k] == s[k])
    && (forall k :: 1 <= k < |r| && cut <= k ==> r[k] != r[k - 1])
  }

  lemma NothingSpliced(key: Path -> int, s: seq<Path>, marks: seq<nat>)
    requires Marks(s, marks, if |s| == 0 then 1 else |s|) && Sorted(key, s)
    ensures Spliced(key, s, s, marks, |marks|)
  {
  }

  /** Dropping one of two equal neighbours. */
  lemma DropRepeated(key: Path -> int, r: seq<Path>, d: nat)
    requires 1 <= d < |r| && r[d] == r[d - 1] && Sorted(key, r)
    ensures var r' := r[..d] + r[d + 1..];
            Sorted(key, r') && (forall p :: p in r' <==> p in r)
  {
    var r' := r[..d] + r[d + 1..];
    assert forall k :: 0 <= k < |r'| ==> r'[k] == if k < d then r[k] else r[k + 1];
    forall p ensures p in r' <==> p in r {
      if p in r {
        var k :| 0 <= k < |r| && r[k] == p;
        assert p == r'[if k < d then k else k - 1];
      }
    }
  }

  /** Between one mark and the next no entry repeats its predecessor. */
  lemma NoMarkBetween(s: seq<Path>, marks: seq<nat>, j: nat, k: nat)
    requires Marks(s, marks, if |s| == 0 then 1 else |s|) && j < |marks|
    requires marks[j] < k < Cut(s, marks, j + 1)
    ensures k < |s| && s[k] != s[k - 1]
  {
    assert forall l :: 0 <= l < |marks| ==> if l <= j then marks[l] <= marks[j] else marks[l] >= Cut(s, marks, j + 1);
  }

  lemma SpliceStep(key: Path -> int, r: seq<Path>, s: seq<Path>, marks: seq<nat>, j: nat)
    requires j < |marks| && Spliced(key, r, s, marks, j + 1)
    ensures marks[j] < |r|
    ensures Spliced(key, r[..marks[j]] + r[marks[j] + 1..], s, marks, j)
  {
    var d := marks[j];
    assert d in marks;
    assert r[d] == s[d] && r[d - 1] == s[d - 1];
    DropRepeated(key, r, d);
    NoneRepeated(r, s, marks, j);
    Joined(r, d);
  }

  /** Past the j-th mark no entry repeats its predecessor, and the one behind it differs from the marked one. */
  lemma NoneRepeated(r: seq<Path>, s: seq<Path>, marks: seq<nat>, j: nat)
    requires Marks(s, marks, if |s| == 0 then 1 else |s|) && j < |marks| && marks[j] < Cut(s, marks, j + 1) <= |r|
    requires forall k :: 0 <= k < Cut(s, marks, j + 1) ==> r[k] == s[k]
    requires forall k :: 1 <= k < |r| && Cut(s, marks, j + 1) <= k ==> r[k] != r[k - 1]
    ensures forall k :: marks[j] < k < |r| ==> r[k] != r[k - 1]
  {
    forall k | marks[j] < k < |r| ensures r[k] != r[k - 1] {
      if k < Cut(s, marks, j + 1) { NoMarkBetween(s, marks, j, k); }
    }
  }

  /** What is left when an entry is spliced out: the entries before it, and those behind it, one place further up. */
  lemma Joined(r: seq<Path>, d: nat)
    requires d < |r|
    ensures var r' := r[..d] + r[d + 1..];
            && |r'| == |r| - 1
            && (forall k :: 0 <= k < d ==> r'[k] == r[k]) && forall k :: d <= k < |r'| ==> r'[k] == r[k + 1]
  {
  }

  lemma SplicedAll(key: Path -> int, r: seq<Path>, s: seq<Path>, marks: seq<nat>)
    requires Spliced(key, r, s, marks, 0) && Injective(key, s)
    ensures StrictlySorted(key, r)
  {
    forall k | 1 <= k < |r| ensures key(r[k - 1]) < key(r[k]) {
      assert forall l :: 0 <= l < |marks| ==> marks[l] >= Cut(s, marks, 0);
      assert k < Cut(s, marks, 0) ==> k !in marks;
      assert r[k] in s && r[k - 1] in s;
    }
    forall i, j | 0 <= i < j < |r| ensures key(r[i]) < key(r[j]) {
      assert i == j - 1 || key(r[i]) <= key(r[j - 1]);
    }
  }

  lemma SplitQuery(t: Node, a: Path, b: Path, i: nat)
    requires Has(t, a) && Has(t, b) && a != b && 0 < i <= |a| + 1 && i <= |b| + 1 && a[..i - 1] == b[..i - 1]
    requires (if i <= |a| then Some(a[..i]) else None) != (if i <= |b| then Some(b[..i]) else None)
    ensures SiblingQuery(t, if i <= |a| then Some(a[..i]) else None, if i <= |b| then Some(b[..i]) else None)
    ensures i <= |a| && i <= |b| ==> a[i - 1] != b[i - 1]
    ensures i <= |a| && i <= |b| ==> (Before(a[..i], b[..i]) <==> a[i - 1] < b[i - 1])
  {
    if i <= |a| {
      HasPrefix(t, a, i);
      LastStep(a, i);
    }
    if i <= |b| {
      HasPrefix(t, b, i);
      LastStep(b, i);
    }
    if i <= |a| && i <= |b| {
      BeforeAtDivergence(a[..i], b[..i], i - 1);
    }
  }

  lemma LastStep(p: Path, i: nat)
    requires 0 < i <= |p|
    ensures p[..i] == p[..i - 1] + [p[i - 1]] && p[..i][..i - 1] == p[..i - 1] && p[..i][i - 1] == p[i - 1]
    ensures Parent(p[..i]) == Some(p[..i - 1])
  {
  }

  lemma SameMembers(a: seq<Path>, b: seq<Path>)
    requires multiset(a) == multiset(b)
    ensures forall p :: p in a <==> p in b
  {
    assert forall p :: p in a <==> p in multiset(a);
  }
}
