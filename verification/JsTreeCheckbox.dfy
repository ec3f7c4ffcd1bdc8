/** jsTree's tri-state checkboxes. The items of the tree are addressed by paths; the root node stands for the
    container and carries no state. */
module JsTreeCheckbox {
  import opened Dom
  import opened JsTree

  datatype Check = Checked | Unchecked | Undetermined

  type States = map<Path, Check>

  ghost predicate Covers(t: Node, s: States) {
    forall p :: Item(t, p) ==> p in s
  }

  /** The state the children of p call for. */
  ghost predicate Fits(t: Node, s: States, p: Path)
    requires Covers(t, s) && Item(t, p)
  {
    var n := |At(t, p).kids|;
    KidItems(t, p);
    if n == 0 then
      s[p] != Undetermined
    else
      s[p] == if forall i :: 0 <= i < n ==> s[p + [i]] == Checked then Checked
              else if forall i :: 0 <= i < n ==> s[p + [i]] == Unchecked then Unchecked
              else Undetermined
  }

  /** Leaves are checked or unchecked; an inner item is checked or unchecked just when all its children are. */
  ghost predicate TriState(t: Node, s: States) {
    Covers(t, s) && forall p :: Item(t, p) ==> Fits(t, s, p)
  }

  lemma KidItems(t: Node, p: Path)
    requires Has(t, p)
    ensures forall i :: 0 <= i < |At(t, p).kids| ==> Item(t, p + [i])
  {
    forall i | 0 <= i < |At(t, p).kids| ensures Item(t, p + [i]) { HasKid(t, p, i); }
  }

  predicate AtOrBelow(q: Path, p: Path) {
    |q| <= |p| && p[..|q|] == q
  }

  /** Whether p fits depends on its own state and its children's only. */
  lemma FitsFrame(t: Node, s: States, s': States, p: Path)
    requires Covers(t, s) && Covers(t, s') && Item(t, p) && Fits(t, s, p)
    requires s'[p] == s[p]
    requires forall i :: 0 <= i < |At(t, p).kids| ==> p + [i] in s && p + [i] in s' && s'[p + [i]] == s[p + [i]]
    ensures Fits(t, s', p)
  {
  }

  lemma ItemPrefix(t: Node, p: Path, n: nat)
    requires Item(t, p) && 0 < n <= |p|
    ensures Item(t, p[..n])
    ensures n < |p| ==> p[n] < |At(t, p[..n]).kids| && p[..n] + [p[n]] == p[..n + 1]
  {
    HasPrefix(t, p, n);
    if n < |p| {
      HasPrefix(t, p, n + 1);
      assert p[..n + 1] == p[..n] + [p[n]];
      HasKid(t, p[..n], p[n]);
    }
  }

  // ---- recomputing from the leaves ----

  /** The state the leaves below p give it. */
  ghost function FromLeaves(t: Node, s: States, p: Path): Check
    requires Covers(t, s) && Item(t, p)
    decreases At(t, p)
  {
    var n := |At(t, p).kids|;
    KidItems(t, p);
    KidsBelow(t, p);
    if n == 0 then s[p]
    else if forall i :: 0 <= i < n ==> FromLeaves(t, s, p + [i]) == Checked then Checked
    else if forall i :: 0 <= i < n ==> FromLeaves(t, s, p + [i]) == Unchecked then Unchecked
    else Undetermined
  }

  lemma KidsBelow(t: Node, p: Path)
    requires Has(t, p)
    ensures forall i :: 0 <= i < |At(t, p).kids| ==> Has(t, p + [i]) && At(t, p + [i]) == At(t, p).kids[i]
  {
    forall i | 0 <= i < |At(t, p).kids| ensures Has(t, p + [i]) && At(t, p + [i]) == At(t, p).kids[i] {
      HasKid(t, p, i);
    }
  }

  ghost predicate IsLeaf(t: Node, p: Path) {
    Item(t, p) && At(t, p).kids == []
  }

  /** The invariant pins every state down from the leaves alone: it is what recomputing gives. */
  lemma {:induction false} TriStateIsRecomputed(t: Node, s: States, s0: States, p: Path)
    requires TriState(t, s) && Covers(t, s0) && Item(t, p)
    requires forall q :: IsLeaf(t, q) ==> s0[q] == s[q]
    ensures s[p] == FromLeaves(t, s0, p)
    decreases At(t, p)
  {
    var n := |At(t, p).kids|;
    KidItems(t, p);
    KidsBelow(t, p);
    assert Fits(t, s, p);
    if n == 0 {
      assert IsLeaf(t, p);
    } else {
      forall i | 0 <= i < n ensures s[p + [i]] == FromLeaves(t, s0, p + [i]) {
        TriStateIsRecomputed(t, s, s0, p + [i]);
      }
    }
  }

  // ---- change_state ----

  class CheckTree {
    const tree: Node
    var state: States

    constructor (tree: Node, state: States)
      ensures this.tree == tree && this.state == state
    {
      this.tree, this.state := tree, state;
    }

    /** Everything from obj down gets the value. */
    method SetBelow(obj: Path, value: Check)
      requires Covers(tree, state) && Item(tree, obj)
      modifies `state
      ensures Covers(tree, state)
      ensures forall p :: Item(tree, p) ==> state[p] == if AtOrBelow(obj, p) then value else old(state)[p]
    {
      var below := Preorder(At(tree, obj));
      var i := 0;
      while i < |below|
        invariant 0 <= i <= |below| && Covers(tree, state)
        invariant forall j :: 0 <= j < i ==> obj + below[j] in state && state[obj + below[j]] == value
        invariant forall p :: Item(tree, p) ==> state[p] == old(state)[p] || (AtOrBelow(obj, p) && state[p] == value)
      {
        assert (obj + below[i])[..|obj|] == obj;
        state := state[obj + below[i] := value];
        i := i + 1;
      }
      forall p | Item(tree, p) && AtOrBelow(obj, p) ensures state[p] == value {
        assert p == obj + p[|obj|..];
        HasAppend(tree, obj, p[|obj|..]);
        PreorderComplete(At(tree, obj), p[|obj|..]);
        var j :| 0 <= j < |below| && below[j] == p[|obj|..];
      }
    }

    /** Some child of p has another state than value. */
    method SomeChildDiffers(p: Path, value: Check) returns (r: bool)
      requires Covers(tree, state) && Item(tree, p)
      ensures r ==> exists i :: 0 <= i < |At(tree, p).kids| && p + [i] in state && state[p + [i]] != value
      ensures !r ==> forall i :: 0 <= i < |At(tree, p).kids| ==> p + [i] in state && state[p + [i]] == value
    {
      KidItems(tree, p);
      var i := 0;
      while i < |At(tree, p).kids|
        invariant 0 <= i <= |At(tree, p).kids|
        invariant forall j :: 0 <= j < i ==> state[p + [j]] == value
      {
        if state[p + [i]] != value { return true; }
        i := i + 1;
      }
      r := false;
    }

    /** p and all its ancestors become undetermined. */
    method MarkUp(p: Path)
      requires Covers(tree, state) && Item(tree, p)
      modifies `state
      ensures Covers(tree, state)
      ensures forall q :: Item(tree, q) ==> state[q] == if AtOrBelow(q, p) then Undetermined else old(state)[q]
    {
      var k := |p|;
      while k > 0
        invariant 0 <= k <= |p| && Covers(tree, state)
        invariant forall q :: Item(tree, q) ==>
                    state[q] == if AtOrBelow(q, p) && |q| > k then Undetermined else old(state)[q]
      {
        state := state[p[..k] := Undetermined];
        k := k - 1;
      }
    }

    /** The ancestor of obj of length k, given that the next one down has the value. */
    method Ancestor(obj: Path, k: nat, value: Check) returns (stop: bool)
      requires 0 < k < |obj| && Item(tree, obj) && Item(tree, obj[..k]) && value != Undetermined
      requires AllFitBut(tree, state, obj, k) && obj[..k + 1] in state && state[obj[..k + 1]] == value
      modifies `state
      ensures AllFitBut(tree, state, obj, if stop then 0 else k - 1)
      ensures !stop ==> obj[..k] in state && state[obj[..k]] == value
      ensures forall p :: Item(tree, p) && !ProperPrefix(p, obj) ==> state[p] == old(state)[p]
    {
      var a := obj[..k];
      stop := SomeChildDiffers(a, value);
      ghost var before := state;
      forall p ensures AtOrBelow(p, a) ==> ProperPrefix(p, obj) { UpTo(obj, k, p); }
      assert AtOrBelow(a, a);
      if stop {
        MarkUp(a);
        MarkUpFits(tree, before, state, obj, k, value);
      } else {
        state := state[a := value];
        SetOneFits(tree, before, state, obj, k, value);
      }
    }

    /** check_node (uncheck false) and uncheck_node (uncheck true). */
    method ChangeState(obj: Path, uncheck: bool)
      requires TriState(tree, state) && Item(tree, obj)
      modifies `state
      ensures TriState(tree, state)
      ensures forall p :: IsLeaf(tree, p) ==>
                state[p] == if AtOrBelow(obj, p) then (if uncheck then Unchecked else Checked) else old(state)[p]
    {
      var value := if uncheck then Unchecked else Checked;
      ghost var s0 := state;
      SetBelow(obj, value);
      SetBelowFits(tree, s0, state, obj, value);
      ghost var s1 := state;
      var k := |obj| - 1;
      assert obj[..k + 1] == obj;
      while k > 0
        invariant 0 <= k < |obj| && AllFitBut(tree, state, obj, k)
        invariant k > 0 ==> obj[..k + 1] in state && state[obj[..k + 1]] == value
        invariant forall p :: Item(tree, p) && !ProperPrefix(p, obj) ==> state[p] == s1[p]
      {
        ItemPrefix(tree, obj, k);
        ghost var before := state;
        var stop := Ancestor(obj, k, value);
        k := if stop then 0 else k - 1;
      }
      LeavesAreNoAncestors(tree, obj);
    }
  }

  lemma LeavesAreNoAncestors(t: Node, obj: Path)
    requires Item(t, obj)
    ensures forall p :: IsLeaf(t, p) ==> !ProperPrefix(p, obj)
  {
    forall p | IsLeaf(t, p) && ProperPrefix(p, obj) ensures false { ItemPrefix(t, obj, |p|); }
  }

  /** All items fit, except perhaps the proper ancestors of obj of at most this length. */
  ghost predicate AllFitBut(t: Node, s: States, obj: Path, k: nat) {
    Covers(t, s) && forall p :: Item(t, p) && !(ProperPrefix(p, obj) && |p| <= k) ==> Fits(t, s, p)
  }

  lemma ChildBelow(obj: Path, p: Path, i: nat)
    ensures AtOrBelow(obj, p) ==> AtOrBelow(obj, p + [i])
    ensures !AtOrBelow(obj, p) && !ProperPrefix(p, obj) ==> !AtOrBelow(obj, p + [i])
  {
    var q := p + [i];
    assert q[..|p|] == p;
    if |obj| <= |p| { assert q[..|obj|] == p[..|obj|]; }
    if |obj| == |p| + 1 { assert q[..|obj|] == q; }
  }

  lemma SetBelowFits(t: Node, s: States, s': States, obj: Path, value: Check)
    requires TriState(t, s) && Item(t, obj) && Covers(t, s') && value != Undetermined
    requires forall p :: Item(t, p) ==> s'[p] == if AtOrBelow(obj, p) then value else s[p]
    ensures AllFitBut(t, s', obj, |obj| - 1)
  {
    forall p: Path | Item(t, p) && !ProperPrefix(p, obj) ensures Fits(t, s', p) {
      assert Fits(t, s, p);
      SetBelowFitsAt(t, s, s', obj, value, p);
    }
  }

  lemma SetBelowFitsAt(t: Node, s: States, s': States, obj: Path, value: Check, p: Path)
    requires Covers(t, s) && Covers(t, s') && value != Undetermined
    requires Item(t, p) && Fits(t, s, p) && !ProperPrefix(p, obj)
    requires forall q :: Item(t, q) ==> s'[q] == if AtOrBelow(obj, q) then value else s[q]
    ensures Fits(t, s', p)
  {
    KidItems(t, p);
    var n := |At(t, p).kids|;
    forall i | 0 <= i < n ensures s'[p + [i]] == if AtOrBelow(obj, p) then value else s[p + [i]] {
      ChildBelow(obj, p, i);
    }
    SetOrKept(t, s, s', p, value, AtOrBelow(obj, p));
  }

  lemma SetOrKept(t: Node, s: States, s': States, p: Path, value: Check, changed: bool)
    requires Covers(t, s) && Covers(t, s') && value != Undetermined && Item(t, p) && Fits(t, s, p)
    requires s'[p] == if changed then value else s[p]
    requires forall i :: 0 <= i < |At(t, p).kids| ==>
               p + [i] in s && p + [i] in s' && s'[p + [i]] == if changed then value else s[p + [i]]
    ensures Fits(t, s', p)
  {
    if changed {
      if At(t, p).kids != [] { UniformFits(t, s', p, value); }
    } else {
      FitsFrame(t, s, s', p);
    }
  }

  /** The ancestors of obj of length at most k are what lies on the way to its prefix of length k. */
  lemma UpTo(obj: Path, k: nat, p: Path)
    requires k < |obj|
    ensures AtOrBelow(p, obj[..k]) <==> ProperPrefix(p, obj) && |p| <= k
  {
    if |p| <= k { assert obj[..k][..|p|] == obj[..|p|]; }
  }

  lemma ChildAbove(p: Path, i: nat, q: Path)
    ensures AtOrBelow(p + [i], q) ==> AtOrBelow(p, q)
    ensures (p + [i])[..|p|] == p
  {
    if |p| < |q| { assert q[..|p| + 1][..|p|] == q[..|p|]; }
  }

  /** An ancestor marked undetermined has children of two kinds, or one that is undetermined itself. */
  lemma MarkedFits(t: Node, s: States, s': States, obj: Path, k: nat, value: Check, p: Path)
    requires 0 < k < |obj| && Item(t, obj) && Covers(t, s) && Covers(t, s') && value != Undetermined
    requires 0 < |p| <= k && p == obj[..|p|] && Item(t, p)
    requires obj[..k + 1] in s && s[obj[..k + 1]] == value
    requires |p| == k ==> exists i :: 0 <= i < |At(t, p).kids| && p + [i] in s && s[p + [i]] != value
    requires forall q :: Item(t, q) ==> s'[q] == if AtOrBelow(q, obj[..k]) then Undetermined else s[q]
    ensures Fits(t, s', p)
  {
    KidItems(t, p);
    ItemPrefix(t, obj, |p|);
    UpTo(obj, k, p);
    var next := p + [obj[|p|]];
    UpTo(obj, k, next);
    if |p| == k {
      var i :| 0 <= i < |At(t, p).kids| && p + [i] in s && s[p + [i]] != value;
      assert s'[p + [i]] == s[p + [i]] && s'[next] == value;
    } else {
      assert s'[next] == Undetermined;
    }
  }

  lemma MarkUpFits(t: Node, s: States, s': States, obj: Path, k: nat, value: Check)
    requires 0 < k < |obj| && Item(t, obj) && Item(t, obj[..k]) && AllFitBut(t, s, obj, k) && Covers(t, s')
    requires obj[..k + 1] in s && s[obj[..k + 1]] == value != Undetermined
    requires exists i :: 0 <= i < |At(t, obj[..k]).kids| && obj[..k] + [i] in s && s[obj[..k] + [i]] != value
    requires forall q :: Item(t, q) ==> s'[q] == if AtOrBelow(q, obj[..k]) then Undetermined else s[q]
    ensures AllFitBut(t, s', obj, 0)
  {
    forall p: Path | Item(t, p) ensures Fits(t, s', p) {
      UpTo(obj, k, p);
      if AtOrBelow(p, obj[..k]) {
        MarkedFits(t, s, s', obj, k, value, p);
      } else {
        AsideFits(t, s, s', obj[..k], p);
      }
    }
  }

  /** Off the way to a, nothing has changed. */
  lemma AsideFits(t: Node, s: States, s': States, a: Path, p: Path)
    requires Covers(t, s) && Covers(t, s') && Item(t, p) && Fits(t, s, p) && !AtOrBelow(p, a)
    requires forall q :: Item(t, q) ==> s'[q] == if AtOrBelow(q, a) then Undetermined else s[q]
    ensures Fits(t, s', p)
  {
    KidItems(t, p);
    forall i | 0 <= i < |At(t, p).kids| ensures !AtOrBelow(p + [i], a) { ChildAbove(p, i, a); }
    FitsFrame(t, s, s', p);
  }

  lemma SetOneFits(t: Node, s: States, s': States, obj: Path, k: nat, value: Check)
    requires 0 < k < |obj| && Item(t, obj) && AllFitBut(t, s, obj, k) && value != Undetermined
    requires Item(t, obj[..k])
    requires forall i :: 0 <= i < |At(t, obj[..k]).kids| ==> obj[..k] + [i] in s && s[obj[..k] + [i]] == value
    requires s' == s[obj[..k] := value]
    ensures AllFitBut(t, s', obj, k - 1)
  {
    var a := obj[..k];
    ItemPrefix(t, obj, k);
    KidItems(t, a);
    assert forall i :: 0 <= i < |At(t, a).kids| ==> a + [i] != a && s'[a + [i]] == value;
    forall p: Path | Item(t, p) && !(ProperPrefix(p, obj) && |p| <= k - 1) ensures Fits(t, s', p) {
      if p == a {
        UniformFits(t, s', a, value);
      } else {
        NotOnTheWay(obj, k, p);
        ElsewhereFits(t, s, a, value, p);
      }
    }
  }

  lemma ElsewhereFits(t: Node, s: States, a: Path, value: Check, p: Path)
    requires Covers(t, s) && Item(t, p) && Fits(t, s, p) && p != a && forall i: nat :: p + [i] != a
    ensures Covers(t, s[a := value]) && Fits(t, s[a := value], p)
  {
    KidItems(t, p);
    FitsFrame(t, s, s[a := value], p);
  }

  lemma UniformFits(t: Node, s: States, a: Path, value: Check)
    requires Covers(t, s) && Item(t, a) && At(t, a).kids != [] && value != Undetermined && s[a] == value
    requires forall i :: 0 <= i < |At(t, a).kids| ==> a + [i] in s && s[a + [i]] == value
    ensures Fits(t, s, a)
  {
    assert s[a + [0]] == value;
  }

  lemma NotOnTheWay(obj: Path, k: nat, p: Path)
    requires 0 < k < |obj| && p != obj[..k] && !(ProperPrefix(p, obj) && |p| <= k - 1)
    ensures !(ProperPrefix(p, obj) && |p| <= k)
    ensures forall i: nat :: p + [i] != obj[..k]
  {
    forall i: nat ensures p + [i] != obj[..k] {
      UpTo(obj, k, p);
      ChildAbove(p, i, obj[..k]);
    }
  }

  // ---- get_checked ----

  /** On the container: "> ul > .jstree-checked, .jstree-undetermined > ul > .jstree-checked". */
  predicate Picked(s: States, p: Path) {
    p != [] && p in s && s[p] == Checked
    && (|p| == 1 || (p[..|p| - 1] in s && s[p[..|p| - 1]] == Undetermined))
  }

  function Pick(s: States, ps: seq<Path>): seq<Path> {
    if ps == [] then [] else (if Picked(s, ps[0]) then [ps[0]] else []) + Pick(s, ps[1..])
  }

  /** get_checked(-1), in document order. */
  function GetChecked(t: Node, s: States): seq<Path> {
    Pick(s, Preorder(t))
  }

  lemma {:induction false} PickMembers(s: States, ps: seq<Path>, p: Path)
    ensures p in Pick(s, ps) <==> p in ps && Picked(s, p)
  {
    if ps != [] { PickMembers(s, ps[1..], p); }
  }

  /** A checked item whose ancestors are all not checked. */
  ghost predicate Topmost(s: States, p: Path) {
    p != [] && p in s && s[p] == Checked && forall k :: 0 < k < |p| && p[..k] in s ==> s[p[..k]] != Checked
  }

  /** Below a checked item everything is checked. */
  lemma {:induction false} CheckedBelow(t: Node, s: States, p: Path, k: nat)
    requires TriState(t, s) && Item(t, p) && 0 < k <= |p| && p[..k] in s && s[p[..k]] == Checked
    ensures s[p] == Checked
    decreases |p| - k
  {
    if k == |p| {
      assert p[..k] == p;
    } else {
      ItemPrefix(t, p, k);
      ItemPrefix(t, p, k + 1);
      assert Fits(t, s, p[..k]);
      CheckedBelow(t, s, p, k + 1);
    }
  }

  /** get_checked returns exactly the topmost checked items. */
  lemma GetCheckedIsTopmost(t: Node, s: States, p: Path)
    requires TriState(t, s)
    ensures p in GetChecked(t, s) <==> Item(t, p) && Topmost(s, p)
  {
    PickMembers(s, Preorder(t), p);
    PreorderComplete(t, p);
    if Item(t, p) && s[p] == Checked && |p| > 1 {
      var n := |p| - 1;
      ItemPrefix(t, p, n);
      assert Fits(t, s, p[..n]);
      KidItems(t, p[..n]);
      assert p[..n] + [p[n]] == p;
      forall k | 0 < k < |p| && p[..k] in s && s[p[..k]] == Checked ensures s[p[..n]] == Checked {
        assert p[..n][..k] == p[..k];
        CheckedBelow(t, s, p[..n], k);
      }
    }
  }

  /** Every checked leaf lies at or below exactly one of the items returned, and no other leaf lies below any. */
  lemma CheckedLeavesCovered(t: Node, s: States, p: Path)
    requires TriState(t, s) && IsLeaf(t, p)
    ensures s[p] == Checked <==> exists k :: 0 < k <= |p| && p[..k] in GetChecked(t, s)
    ensures forall k, l :: 0 < k <= |p| && 0 < l <= |p| && p[..k] in GetChecked(t, s) && p[..l] in GetChecked(t, s) ==>
              k == l
  {
    forall k | 0 < k <= |p| ensures p[..k] in GetChecked(t, s) <==> Topmost(s, p[..k]) {
      ItemPrefix(t, p, k);
      GetCheckedIsTopmost(t, s, p[..k]);
    }
    forall k | 0 < k <= |p| && Topmost(s, p[..k]) ensures s[p] == Checked {
      CheckedBelow(t, s, p, k);
    }
    if s[p] == Checked { var k := FirstChecked(t, s, p); }
    forall k, l | 0 < k < l <= |p| && Topmost(s, p[..k]) ensures !Topmost(s, p[..l]) {
      assert p[..l][..k] == p[..k];
    }
  }

  lemma FirstChecked(t: Node, s: States, p: Path) returns (k: nat)
    requires TriState(t, s) && Item(t, p) && s[p] == Checked
    ensures 0 < k <= |p| && Topmost(s, p[..k])
  {
    k := 1;
    ItemPrefix(t, p, 1);
    while s[p[..k]] != Checked
      invariant 0 < k <= |p| && p[..k] in s
      invariant forall j :: 0 < j < k ==> p[..j] in s && s[p[..j]] != Checked
      decreases |p| - k
    {
      assert p[..|p|] == p;
      ItemPrefix(t, p, k + 1);
      k := k + 1;
    }
    assert forall j :: 0 < j < k ==> p[..k][..j] == p[..j];
  }
}
