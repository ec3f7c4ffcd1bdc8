/** jsTree's _get_next and _get_prev over the visible items of a tree. The root node stands for the container;
    open holds the items with class jstree-open. */
module JsTreeTraverse {
  import opened Dom
  import opened Wrappers
  import opened DocumentOrder
  import opened JsTree

  /** All items above p are open. */
  ghost predicate Visible(t: Node, open: set<Path>, p: Path) {
    Item(t, p) && forall k :: 0 < k < |p| ==> p[..k] in open
  }

  ghost predicate OpenNonEmpty(t: Node, open: set<Path>) {
    forall p :: p in open && Item(t, p) ==> At(t, p).kids != []
  }

  /** y is the next visible item after x in document order. */
  ghost predicate Successor(t: Node, open: set<Path>, x: Path, y: Path) {
    && Visible(t, open, y) && Before(x, y)
    && forall z :: Visible(t, open, z) && Before(x, z) ==> !Before(z, y)
  }

  ghost predicate Last(t: Node, open: set<Path>, x: Path) {
    forall z :: Visible(t, open, z) ==> !Before(x, z)
  }

  predicate HasNext(t: Node, p: Path)
    requires Has(t, p)
  {
    NextSibling(t, p).Some?
  }

  /** The length of the longest common prefix. */
  function Common(p: Path, q: Path): (k: nat)
    ensures k <= |p| && k <= |q| && p[..k] == q[..k]
    ensures k == |p| || k == |q| || p[k] != q[k]
  {
    if p == [] || q == [] || p[0] != q[0] then 0
    else
      var k := 1 + Common(p[1..], q[1..]);
      assert p[..k] == [p[0]] + p[1..][..k - 1] && q[..k] == [q[0]] + q[1..][..k - 1];
      k
  }

  /** _get_next */
  method GetNext(t: Node, open: set<Path>, x: Path) returns (r: Option<Path>)
    requires Visible(t, open, x) && OpenNonEmpty(t, open)
    ensures r.Some? ==> Successor(t, open, x, r.value)
    ensures r.None? ==> Last(t, open, x)
  {
    if x in open {
      FirstChildSucceeds(t, open, x);
      return Some(x + [0]);
    }
    // its own next sibling, or that of the nearest ancestor that has one
    var k := |x|;
    assert x[..k] == x;
    while k > 0
      invariant 0 <= k <= |x|
      invariant forall j :: k < j <= |x| ==> Has(t, x[..j]) && !HasNext(t, x[..j])
    {
      HasPrefix(t, x, k);
      var next := NextSibling(t, x[..k]);
      if next.Some? {
        NextSiblingSucceeds(t, open, x, k);
        return next;
      }
      k := k - 1;
    }
    forall z | Visible(t, open, z) ensures !Before(x, z) {
      AfterMeansSibling(t, open, x, z);
    }
    return None;
  }

  lemma FirstChildSucceeds(t: Node, open: set<Path>, x: Path)
    requires Visible(t, open, x) && OpenNonEmpty(t, open) && x in open
    ensures Successor(t, open, x, x + [0])
  {
    var y := x + [0];
    HasKid(t, x, 0);
    forall k | 0 < k < |y| ensures y[..k] in open {
      assert y[..k] == if k == |x| then x else x[..k];
    }
    assert y[..|x|] == x && x[..|x|] == x;
    BeforeAtDivergence(x, y, |x|);
    forall z | Before(x, z) ensures !Before(z, y) {
      var d := Common(x, z);
      BeforeAtDivergence(x, z, d);
      if d < |x| {
        assert y[..d] == x[..d];
        BeforeAtDivergence(z, y, d);
      } else {
        assert z[..|x|] == x;
        BeforeAtDivergence(z, y, if z[|x|] == 0 then |y| else |x|) by {
          if z[|x|] == 0 { assert z[..|y|] == y && y[..|y|] == y; }
        }
      }
    }
  }

  lemma ClosedHides(t: Node, open: set<Path>, x: Path, z: Path)
    requires x != [] && x !in open && Visible(t, open, z)
    ensures |x| < |z| ==> z[..|x|] != x
  {
  }

  /** A visible item after x, when x is closed, hangs off a later sibling of x or of one of its ancestors. */
  lemma AfterMeansSibling(t: Node, open: set<Path>, x: Path, z: Path)
    requires Visible(t, open, x) && x !in open && Visible(t, open, z)
    ensures var d := Common(x, z);
            Before(x, z) ==> d < |x| && d < |z| && z[d] > x[d] && Has(t, x[..d + 1]) && HasNext(t, x[..d + 1])
  {
    var d := Common(x, z);
    BeforeAtDivergence(x, z, d);
    ClosedHides(t, open, x, z);
    assert x[..|x|] == x;
    if d < |x| && d < |z| && z[d] > x[d] {
      LaterSibling(t, x, z, d);
    }
  }

  lemma LaterSibling(t: Node, x: Path, z: Path, d: nat)
    requires Has(t, x) && Has(t, z) && d < |x| && d < |z| && x[..d] == z[..d] && z[d] > x[d]
    ensures Has(t, x[..d + 1]) && HasNext(t, x[..d + 1])
  {
    HasPrefix(t, z, d + 1);
    LastStep(x, d + 1);
    LastStep(z, d + 1);
    EarlierHasNext(t, x[..d], x[d], z[d]);
  }

  lemma EarlierHasNext(t: Node, p: Path, i: nat, j: nat)
    requires Has(t, p + [j]) && i < j
    ensures Has(t, p + [i]) && HasNext(t, p + [i])
  {
    HasKid(t, p, j);
    HasKid(t, p, i);
    HasKid(t, p, i + 1);
    assert (p + [i])[..|p|] == p;
  }

  lemma NextSiblingSucceeds(t: Node, open: set<Path>, x: Path, k: nat)
    requires Visible(t, open, x) && x !in open && 0 < k <= |x|
    requires Has(t, x[..k]) && HasNext(t, x[..k])
    requires forall j :: k < j <= |x| ==> Has(t, x[..j]) && !HasNext(t, x[..j])
    ensures Successor(t, open, x, NextSibling(t, x[..k]).value)
  {
    var y := NextSibling(t, x[..k]).value;
    assert x[..k][..k - 1] == x[..k - 1];
    assert y == x[..k - 1] + [x[k - 1] + 1];
    forall j | 0 < j < |y| ensures y[..j] in open {
      assert y[..j] == x[..j];
    }
    assert y[..k - 1] == x[..k - 1];
    BeforeAtDivergence(x, y, k - 1);
    forall z | Visible(t, open, z) && Before(x, z) ensures !Before(z, y) {
      AfterMeansSibling(t, open, x, z);
      var d := Common(x, z);
      assert d + 1 <= k;
      if d == k - 1 {
        if z[d] == y[d] {
          assert z[..k] == z[..d] + [z[d]] == y && y[..k] == y;
          BeforeAtDivergence(z, y, k);
        } else {
          BeforeAtDivergence(z, y, d);
        }
      } else {
        assert y[..d] == x[..d];
        BeforeAtDivergence(z, y, d);
      }
    }
  }

  /** All items from length n + 1 on, on the way down to x, are last children. */
  ghost predicate LastOnly(t: Node, x: Path, n: nat) {
    forall j :: n < j <= |x| ==> Has(t, x[..j]) && !HasNext(t, x[..j])
  }

  lemma LastOnlyBelow(t: Node, x: Path, n: nat)
    requires Has(t, x) && n <= |x| && At(t, x).kids != [] && LastOnly(t, x, n)
    ensures var y := x + [|At(t, x).kids| - 1];
            Has(t, y) && LastOnly(t, y, n) && y[..n] == x[..n]
  {
    var last := |At(t, x).kids| - 1;
    var y := x + [last];
    HasKid(t, x, last);
    HasKid(t, x, last + 1);
    assert y[..|x|] == x && y[..|y|] == y;
    assert forall j: nat :: j <= |x| ==> y[..j] == x[..j];
  }

  /** From an item down through last children, as long as they are open. */
  method LastBelow(t: Node, open: set<Path>, top: Path) returns (cur: Path)
    requires Visible(t, open, top) && OpenNonEmpty(t, open)
    ensures Visible(t, open, cur) && cur !in open
    ensures |cur| >= |top| && cur[..|top|] == top && LastOnly(t, cur, |top|)
  {
    cur := top;
    assert top[..|top|] == top;
    while cur in open
      invariant Visible(t, open, cur) && |cur| >= |top| && cur[..|top|] == top && LastOnly(t, cur, |top|)
      decreases At(t, cur)
    {
      var last := |At(t, cur).kids| - 1;
      HasKid(t, cur, last);
      LastChildVisible(t, open, cur, last);
      LastOnlyBelow(t, cur, |top|);
      cur := cur + [last];
    }
  }

  /** From there the next item is the next sibling of the one at the top. */
  lemma BeforeSibling(t: Node, open: set<Path>, p: Path, i: nat, cur: Path)
    requires i > 0 && Has(t, p + [i]) && Visible(t, open, cur) && cur !in open
    requires |cur| > |p| && cur[..|p| + 1] == p + [i - 1] && LastOnly(t, cur, |p| + 1)
    ensures Successor(t, open, cur, p + [i])
  {
    HasKid(t, p, i);
    EarlierHasNext(t, p, i - 1, i);
    assert (p + [i - 1])[..|p|] == p;
    NextSiblingSucceeds(t, open, cur, |p| + 1);
  }

  /** _get_prev: the item whose successor x is, if there is one. */
  method GetPrev(t: Node, open: set<Path>, x: Path) returns (r: Option<Path>)
    requires Visible(t, open, x) && OpenNonEmpty(t, open)
    ensures r.Some? ==> Visible(t, open, r.value) && Successor(t, open, r.value, x)
    ensures r.None? <==> x == [0]
  {
    var n := |x| - 1;
    var p, i := x[..n], x[n];
    assert x == p + [i];
    HasKid(t, p, i);
    if i > 0 {
      HasKid(t, p, i - 1);
      SiblingVisible(t, open, x, p + [i - 1]);
      var cur := LastBelow(t, open, p + [i - 1]);
      BeforeSibling(t, open, p, i, cur);
      return Some(cur);
    } else if n > 0 {
      HasPrefix(t, x, n);
      assert forall k :: 0 < k < n ==> p[..k] == x[..k];
      FirstChildSucceeds(t, open, p);
      return Some(p);
    }
    return None;
  }

  lemma SiblingVisible(t: Node, open: set<Path>, x: Path, y: Path)
    requires Visible(t, open, x) && Has(t, y) && |y| == |x| && y[..|y| - 1] == x[..|x| - 1]
    ensures Visible(t, open, y)
  {
    forall k | 0 < k < |y| ensures y[..k] in open {
      assert y[..k] == y[..|y| - 1][..k] == x[..|x| - 1][..k] == x[..k];
    }
  }

  lemma LastChildVisible(t: Node, open: set<Path>, x: Path, i: nat)
    requires Visible(t, open, x) && x in open && Has(t, x + [i])
    ensures Visible(t, open, x + [i])
  {
    var y := x + [i];
    forall k | 0 < k < |y| ensures y[..k] in open {
      assert y[..k] == if k == |x| then x else x[..k];
    }
  }

  /** _get_next and _get_prev undo one another: an item has one successor and is the successor of one item only. */
  lemma SuccessorUnique(t: Node, open: set<Path>, x: Path, x': Path, y: Path, y': Path)
    requires Visible(t, open, x) && Visible(t, open, x')
    requires Successor(t, open, x, y) && Successor(t, open, x', y')
    ensures x == x' <==> y == y'
  {
    BeforeTotal(x, x');
    BeforeTotal(y, y');
  }

  /** Nothing visible comes before the first root. */
  lemma FirstRootFirst(t: Node, open: set<Path>, x: Path)
    requires Visible(t, open, x)
    ensures !Before(x, [0])
  {
    assert [0][1..] == [];
  }

  /** _get_prev(_get_next(x)) is x, whenever there is a next item. */
  method NextThenPrev(t: Node, open: set<Path>, x: Path) returns (next: Option<Path>, back: Option<Path>)
    requires Visible(t, open, x) && OpenNonEmpty(t, open)
    ensures next.Some? ==> Successor(t, open, x, next.value) && back == Some(x)
    ensures next.None? ==> Last(t, open, x)
  {
    next := GetNext(t, open, x);
    back := None;
    if next.Some? {
      FirstRootFirst(t, open, x);
      back := GetPrev(t, open, next.value);
      SuccessorUnique(t, open, back.value, x, next.value, next.value);
    }
  }

  /** _get_next(_get_prev(x)) is x, for every item but the first root. */
  method PrevThenNext(t: Node, open: set<Path>, x: Path) returns (prev: Option<Path>, back: Option<Path>)
    requires Visible(t, open, x) && OpenNonEmpty(t, open)
    ensures prev.Some? <==> x != [0]
    ensures prev.Some? ==> Successor(t, open, prev.value, x) && back == Some(x)
  {
    prev := GetPrev(t, open, x);
    back := None;
    if prev.Some? {
      back := GetNext(t, open, prev.value);
      assert back.Some?;
      SuccessorUnique(t, open, prev.value, prev.value, x, back.value);
    }
  }

  // ---- the whole walk ----

  /** The visible items in document order. */
  ghost function VisibleItems(t: Node, open: set<Path>, ps: seq<Path>): seq<Path> {
    if ps == [] then [] else (if Visible(t, open, ps[0]) then [ps[0]] else []) + VisibleItems(t, open, ps[1..])
  }

  lemma {:induction false} VisibleMembers(t: Node, open: set<Path>, ps: seq<Path>, p: Path)
    ensures p in VisibleItems(t, open, ps) <==> p in ps && Visible(t, open, p)
  {
    if ps != [] { VisibleMembers(t, open, ps[1..], p); }
  }

  lemma {:induction false} VisibleIncreasing(t: Node, open: set<Path>, ps: seq<Path>)
    requires Increasing(ps)
    ensures Increasing(VisibleItems(t, open, ps))
  {
    if ps != [] {
      VisibleIncreasing(t, open, ps[1..]);
      var rest := VisibleItems(t, open, ps[1..]);
      forall j | 0 <= j < |rest| ensures Before(ps[0], rest[j]) {
        VisibleMembers(t, open, ps[1..], rest[j]);
        assert rest[j] in rest;
      }
    }
  }

  lemma VisibleItemsMeaning(t: Node, open: set<Path>)
    ensures var vs := VisibleItems(t, open, Preorder(t));
            Increasing(vs) && forall p :: p in vs <==> Visible(t, open, p)
  {
    PreorderIncreasing(t);
    VisibleIncreasing(t, open, Preorder(t));
    forall p ensures p in VisibleItems(t, open, Preorder(t)) <==> Visible(t, open, p) {
      VisibleMembers(t, open, Preorder(t), p);
      PreorderComplete(t, p);
    }
  }

  /** Starting from the first root and repeating _get_next gives every visible item once, in document order. */
  method Walk(t: Node, open: set<Path>) returns (all: seq<Path>)
    requires OpenNonEmpty(t, open)
    ensures all == VisibleItems(t, open, Preorder(t)) && Increasing(all)
    ensures forall p :: p in all <==> Visible(t, open, p)
  {
    VisibleItemsMeaning(t, open);
    all := Repeat(t, open, VisibleItems(t, open, Preorder(t)));
  }

  method Repeat(t: Node, open: set<Path>, ghost vs: seq<Path>) returns (all: seq<Path>)
    requires OpenNonEmpty(t, open)
    requires Increasing(vs) && forall p :: p in vs <==> Visible(t, open, p)
    ensures all == vs
  {
    all := [];
    if t.kids == [] {
      NoItems(t, open, vs);
      return;
    }
    FirstItem(t, open, vs);
    var cur: Option<Path> := Some([0]);
    while cur.Some?
      invariant |all| <= |vs| && all == vs[..|all|]
      invariant cur == if |all| < |vs| then Some(vs[|all|]) else None
      decreases |vs| - |all|
    {
      assert vs[|all|] in vs;
      var next := GetNext(t, open, cur.value);
      StepIsNext(t, open, vs, |all|, next);
      all := all + [cur.value];
      cur := next;
    }
  }

  lemma NoItems(t: Node, open: set<Path>, vs: seq<Path>)
    requires t.kids == [] && forall p :: p in vs <==> Visible(t, open, p)
    ensures vs == []
  {
    HeadIn(vs);
  }

  lemma FirstItem(t: Node, open: set<Path>, vs: seq<Path>)
    requires t.kids != [] && Increasing(vs) && forall p :: p in vs <==> Visible(t, open, p)
    ensures vs != [] && vs[0] == [0]
  {
    HasKid(t, [], 0);
    assert [] + [0] == [0];
    assert Visible(t, open, [0]);
    var k :| 0 <= k < |vs| && vs[k] == [0];
    assert vs[0] in vs;
    BeforeTotal(vs[0], [0]);
  }

  lemma StepIsNext(t: Node, open: set<Path>, vs: seq<Path>, i: nat, next: Option<Path>)
    requires i < |vs| && Increasing(vs) && forall p :: p in vs <==> Visible(t, open, p)
    requires if next.Some? then Successor(t, open, vs[i], next.value) else Last(t, open, vs[i])
    ensures next == if i + 1 < |vs| then Some(vs[i + 1]) else None
  {
    if i + 1 < |vs| {
      assert vs[i + 1] in vs && Before(vs[i], vs[i + 1]);
    }
    if next.Some? {
      var j :| 0 <= j < |vs| && vs[j] == next.value;
      BeforeTotal(vs[i], vs[j]);
      assert j > i;
      assert vs[i + 1] in vs;
      BeforeTotal(vs[i + 1], vs[j]);
    }
  }
}
