/** Sizzle's CHILD filter for :nth-child, :nth-last-child and the -of-type forms, with its two index caches. */
module NthChild {
  import opened Dom
  import opened Wrappers

  /** A child takes part in the count: every element, or for -of-type every node of the given name. */
  predicate Counted(kid: Node, ofType: Option<string>) {
    if ofType.Some? then kid.name == ofType.value else kid.kind == Element
  }

  function Count(kids: seq<Node>, ofType: Option<string>): nat {
    if kids == [] then 0
    else Count(kids[..|kids| - 1], ofType) + (if Counted(kids[|kids| - 1], ofType) then 1 else 0)
  }

  lemma {:induction false} CountSplit(a: seq<Node>, b: seq<Node>, ofType: Option<string>)
    ensures Count(a + b, ofType) == Count(a, ofType) + Count(b, ofType)
  {
    if b == [] {
      assert a + b == a;
    } else {
      var n := |b| - 1;
      assert (a + b)[..|a + b| - 1] == a + b[..n];
      CountSplit(a, b[..n], ofType);
    }
  }

  lemma CountNext(kids: seq<Node>, ofType: Option<string>, k: nat)
    requires k < |kids|
    ensures Count(kids[..k + 1], ofType) == Count(kids[..k], ofType) + (if Counted(kids[k], ofType) then 1 else 0)
    ensures Count(kids[k..], ofType) == Count(kids[k + 1..], ofType) + (if Counted(kids[k], ofType) then 1 else 0)
  {
    assert kids[..k + 1][..k] == kids[..k];
    assert kids[k..] == [kids[k]] + kids[k + 1..];
    CountSplit([kids[k]], kids[k + 1..], ofType);
    assert [kids[k]][..0] == [];
  }

  /** The 1-based place of child k among the counted children, from the front or from the back. */
  function Place(kids: seq<Node>, ofType: Option<string>, forward: bool, k: nat): nat
    requires k < |kids|
  {
    if forward then Count(kids[..k + 1], ofType) else Count(kids[k..], ofType)
  }

  /** Selectors Level 3, section 6.6.5.2: a*n + b is the place for some n >= 0. */
  ghost predicate OnCycle(a: int, b: int, place: int) {
    exists n: nat :: a * n + b == place
  }

  lemma Scaled(a: int, k: int)
    ensures a > 0 && k >= 1 ==> a * k >= a
    ensures a > 0 && k <= -1 ==> a * k <= -a
    ensures a < 0 && k >= 1 ==> a * k <= a
    ensures a < 0 && k <= -1 ==> a * k >= -a
  {
    assert a * k == a + a * (k - 1) == -a + a * (k + 1);
  }

  lemma ExactQuotient(a: int, n: int, d: int)
    requires a != 0 && a * n == d
    ensures d % a == 0 && d / a == n
  {
    var q, r := d / a, d % a;
    assert a * (n - q) == r by { assert a * (n - q) == a * n - a * q; }
    Scaled(a, n - q);
  }

  /** The closing test of the filter decides membership in the cycle, for all integers. */
  lemma CycleTest(first: int, last: int, place: int)
    ensures var diff := place - last;
            (diff == first || (first != 0 && diff % first == 0 && diff / first >= 0)) <==> OnCycle(first, last, place)
  {
    var diff := place - last;
    if diff == first {
      assert first * 1 + last == place;
    } else if first != 0 && diff % first == 0 && diff / first >= 0 {
      assert first * (diff / first) + last == place;
    }
    if n: nat :| first * n + last == place {
      if first != 0 { ExactQuotient(first, n, diff); }
    }
  }

  /** How many children that take part come before child k, counted from either end. */
  function Seen(kids: seq<Node>, ofType: Option<string>, forward: bool, k: nat): nat
    requires k < |kids|
  {
    if forward then Count(kids[..k], ofType) else Count(kids[k + 1..], ofType)
  }

  lemma SeenNext(kids: seq<Node>, ofType: Option<string>, forward: bool, k: nat)
    requires k < |kids|
    ensures Place(kids, ofType, forward, k)
         == Seen(kids, ofType, forward, k) + (if Counted(kids[k], ofType) then 1 else 0)
    ensures forward && k + 1 < |kids| ==> Seen(kids, ofType, forward, k + 1) == Place(kids, ofType, forward, k)
    ensures !forward && k > 0 ==> Seen(kids, ofType, forward, k - 1) == Place(kids, ofType, forward, k)
    ensures Seen(kids, ofType, true, 0) == 0 && Seen(kids, ofType, false, |kids| - 1) == 0
  {
    CountNext(kids, ofType, k);
  }

  /** The walk from a cached index, wrapping around to the first child once. index 0 stands for "none cached". */
  method Seek(kids: seq<Node>, index: nat, d: nat, e: nat) returns (nodeIndex: nat, diff: nat)
    requires e < |kids| && kids[e].kind == Element
    requires index > 0 ==> index < |kids| && d == Place(kids, None, true, index)
    ensures nodeIndex == e && diff == Place(kids, None, true, e)
  {
    nodeIndex, diff := index, d;
    var node: Option<nat> := if nodeIndex > 0 then Some(nodeIndex) else None;
    var start := true;
    while true
      invariant node.Some? ==> node.value < |kids| && nodeIndex == node.value
      invariant node.Some? ==> diff == Place(kids, None, true, node.value)
      invariant node.None? ==> start
      invariant !start ==> node.value < e
      decreases start, if node.Some? then |kids| - node.value else |kids| + 1
    {
      nodeIndex := nodeIndex + 1;
      if node.Some? && node.value + 1 < |kids| {
        node := Some(node.value + 1);
      } else {
        diff, nodeIndex := 0, 0;
        node := if start then Some(0) else None;
        start := false;
      }
      SeenNext(kids, None, true, node.value);
      if kids[node.value].kind == Element {
        diff := diff + 1;
        if node.value == e { return; }
      }
    }
  }

  class ChildFilter {
    const tree: Node
    var dirruns: nat
    /** On a parent: the run, and the index and place of the child found last. */
    var onParent: map<Path, (nat, nat, nat)>
    /** On a node: the run, and its place counted from the end. */
    var onNode: map<Path, (nat, nat)>

    constructor (tree: Node)
      ensures this.tree == tree && Valid()
    {
      this.tree, dirruns, onParent, onNode := tree, 0, map[], map[];
    }

    /** What the caches of the current run say is true of the tree. */
    ghost predicate Valid()
      reads this
    {
      && (forall p :: p in onParent ==> onParent[p].0 <= dirruns)
      && (forall p :: p in onNode ==> onNode[p].0 <= dirruns)
      && (forall p :: p in onParent && onParent[p].0 == dirruns ==> ParentEntryOk(p, onParent[p].1, onParent[p].2))
      && (forall x :: x in onNode && onNode[x].0 == dirruns ==> NodeEntryOk(x, onNode[x].1))
    }

    ghost predicate NodeEntryOk(x: Path, diff: nat) {
      x != [] && Has(tree, x) && diff == PlaceOf(tree, x, false, false)
    }

    ghost predicate ParentEntryOk(p: Path, index: nat, diff: nat) {
      && Has(tree, p)
      && var kids := At(tree, p).kids;
         index < |kids| && diff == Place(kids, None, true, index)
    }

    /** An outermost run raises dirruns; older entries lose their meaning. */
    method NewRun()
      requires Valid()
      modifies `dirruns
      ensures Valid() && dirruns == old(dirruns) + 1
    {
      dirruns := dirruns + 1;
    }

    /** :nth-child: resume from the index cached on the parent, and cache the index found. */
    method SeekOnParent(p: Path, e: nat) returns (diff: nat)
      requires Valid() && Has(tree, p) && e < |At(tree, p).kids| && At(tree, p).kids[e].kind == Element
      modifies `onParent
      ensures Valid()
      ensures diff == Place(At(tree, p).kids, None, true, e)
    {
      var nodeIndex := 0;
      diff := 0;
      if p in onParent && onParent[p].0 == dirruns {
        nodeIndex, diff := onParent[p].1, onParent[p].2;
      }
      nodeIndex, diff := Seek(At(tree, p).kids, nodeIndex, diff, e);
      onParent := onParent[p := (dirruns, nodeIndex, diff)];
    }

    method Remember(p: Path, node: nat, diff: nat)
      requires Valid() && Has(tree, p) && node < |At(tree, p).kids|
      requires diff == Place(At(tree, p).kids, None, false, node)
      modifies `onNode
      ensures Valid()
    {
      PlaceOfKid(tree, p, node);
      assert NodeEntryOk(p + [node], diff);
      onNode := onNode[p + [node] := (dirruns, diff)];
    }

    /** Count from the first or the last child up to e, caching the index of each node passed if asked to. */
    method SeekFromStart(p: Path, e: nat, ofType: Option<string>, forward: bool) returns (diff: nat)
      requires Valid() && Has(tree, p) && e < |At(tree, p).kids| && Counted(At(tree, p).kids[e], ofType)
      modifies `onNode
      ensures Valid()
      ensures diff == Place(At(tree, p).kids, ofType, forward, e)
    {
      var kids := At(tree, p).kids;
      var useCache := ofType.None? && !forward;
      var node := if forward then 0 else |kids| - 1;
      diff := 0;
      SeenNext(kids, ofType, forward, node);
      while true
        invariant 0 <= node < |kids|
        invariant if forward then node <= e else node >= e
        invariant diff == Seen(kids, ofType, forward, node)
        invariant Valid()
        decreases if forward then e - node else node - e
      {
        SeenNext(kids, ofType, forward, node);
        if Counted(kids[node], ofType) {
          diff := diff + 1;
          if useCache { Remember(p, node, diff); }
          if node == e { return; }
        }
        node := if forward then node + 1 else node - 1;
      }
    }

    /** :nth-child(an+b) and its relatives on an element; first is a, last is b. */
    method Nth(elem: Path, forward: bool, ofType: bool, first: int, last: int) returns (r: bool)
      requires Valid() && Has(tree, elem) && IsElement(tree, elem)
      modifies `onParent, `onNode
      ensures Valid()
      ensures r <==> elem != [] && OnCycle(first, last, PlaceOf(tree, elem, forward, ofType))
      ensures r <==> elem != [] && OnCycle(first, last, |Peers(tree, elem, forward, ofType)|)
    {
      if elem != [] { PlaceIsPeers(tree, elem, forward, ofType); }
      if elem == [] { return false; }
      var p, e := elem[..|elem| - 1], elem[|elem| - 1];
      assert elem == p + [e];
      HasKid(tree, p, e);
      var kids := At(tree, p).kids;
      var name := if ofType then Some(At(tree, elem).name) else None;
      if first == 1 && last == 0 {
        assert first * Place(kids, name, forward, e) + last == PlaceOf(tree, elem, forward, ofType);
        return true;
      }
      var diff: int;
      if forward && !ofType {
        diff := SeekOnParent(p, e);
      } else if !ofType && elem in onNode && onNode[elem].0 == dirruns {
        diff := onNode[elem].1;
      } else {
        diff := SeekFromStart(p, e, name, forward);
      }
      CycleTest(first, last, diff);
      diff := diff - last;
      return diff == first || (first != 0 && diff % first == 0 && diff / first >= 0);
    }
  }

  lemma PlaceOfKid(t: Node, p: Path, k: nat)
    requires Has(t, p) && k < |At(t, p).kids|
    ensures Has(t, p + [k]) && PlaceOf(t, p + [k], false, false) == Place(At(t, p).kids, None, false, k)
  {
    HasKid(t, p, k);
    assert (p + [k])[..|p|] == p;
  }

  /** The 1-based place of an element among its siblings that count. */
  function PlaceOf(t: Node, elem: Path, forward: bool, ofType: bool): nat
    requires Has(t, elem)
  {
    if elem == [] then 0
    else
      var p, e := elem[..|elem| - 1], elem[|elem| - 1];
      assert elem == p + [e];
      HasKid(t, p, e);
      Place(At(t, p).kids, if ofType then Some(At(t, elem).name) else None, forward, e)
  }

  /** The siblings up to the element, itself included, that are elements, or for -of-type those with its name. */
  ghost function Peers(t: Node, elem: Path, forward: bool, ofType: bool): set<nat>
    requires Has(t, elem) && elem != []
  {
    var p, e := elem[..|elem| - 1], elem[|elem| - 1];
    assert elem == p + [e];
    HasKid(t, p, e);
    var kids := At(t, p).kids;
    set i: nat |
      && i < |kids| && (if forward then i <= e else e <= i)
      && (if ofType then kids[i].name == kids[e].name else kids[i].kind == Element)
  }

  /** The place is the number of those siblings. */
  lemma PlaceIsPeers(t: Node, elem: Path, forward: bool, ofType: bool)
    requires Has(t, elem) && elem != []
    ensures PlaceOf(t, elem, forward, ofType) == |Peers(t, elem, forward, ofType)|
  {
    var p, e := elem[..|elem| - 1], elem[|elem| - 1];
    assert elem == p + [e];
    HasKid(t, p, e);
    var kids := At(t, p).kids;
    var name := if ofType then Some(kids[e].name) else None;
    if forward {
      CountIsSize(kids, 0, e + 1, name);
      assert kids[0..e + 1] == kids[..e + 1];
      assert Peers(t, elem, forward, ofType) == Marked(kids, 0, e + 1, name);
    } else {
      CountIsSize(kids, e, |kids|, name);
      assert kids[e..|kids|] == kids[e..];
      assert Peers(t, elem, forward, ofType) == Marked(kids, e, |kids|, name);
    }
  }

  ghost predicate CountsAs(kid: Node, name: Option<string>) {
    if name.Some? then kid.name == name.value else kid.kind == Element
  }

  ghost function Marked(kids: seq<Node>, lo: nat, hi: nat, name: Option<string>): set<nat>
    requires hi <= |kids|
  {
    set i: nat | lo <= i < hi && CountsAs(kids[i], name)
  }

  lemma MarkedNext(kids: seq<Node>, lo: nat, hi: nat, name: Option<string>)
    requires lo <= hi < |kids|
    ensures |Marked(kids, lo, hi + 1, name)|
         == |Marked(kids, lo, hi, name)| + (if CountsAs(kids[hi], name) then 1 else 0)
  {
    var before := Marked(kids, lo, hi, name);
    assert Marked(kids, lo, hi + 1, name) == before + (if CountsAs(kids[hi], name) then {hi} else {});
    assert hi !in before;
  }

  lemma {:induction false} CountIsSize(kids: seq<Node>, lo: nat, hi: nat, name: Option<string>)
    requires lo <= hi <= |kids|
    ensures Count(kids[lo..hi], name) == |Marked(kids, lo, hi, name)|
    decreases hi - lo
  {
    if lo < hi {
      CountIsSize(kids, lo, hi - 1, name);
      MarkedNext(kids, lo, hi - 1, name);
      assert kids[lo..hi][..hi - lo - 1] == kids[lo..hi - 1];
    }
  }
}
