/** Document trees. A node is addressed by the path of child indices from the root, so
    identity, parentNode, previousSibling and nextSibling are all functions of the path. */
module Dom {

  import opened Wrappers

  datatype Kind = Element | Document | Other

  datatype Node = Node(kind: Kind, name: string, kids: seq<Node>)

  type Path = seq<nat>

  predicate Has(t: Node, p: Path)
    decreases |p|
  {
    p == [] || (p[0] < |t.kids| && Has(t.kids[p[0]], p[1..]))
  }

  function At(t: Node, p: Path): Node
    requires Has(t, p)
    decreases |p|
  {
    if p == [] then t else At(t.kids[p[0]], p[1..])
  }

  predicate IsElement(t: Node, p: Path) {
    Has(t, p) && At(t, p).kind == Element
  }

  function Parent(p: Path): Option<Path> {
    if p == [] then None else Some(p[..|p| - 1])
  }

  function PreviousSibling(p: Path): Option<Path> {
    if p == [] || p[|p| - 1] == 0 then None else Some(p[..|p| - 1] + [p[|p| - 1] - 1])
  }

  function NextSibling(t: Node, p: Path): Option<Path>
    requires Has(t, p)
  {
    if p == [] then None
    else
      var q := p[..|p| - 1] + [p[|p| - 1] + 1];
      if Has(t, q) then Some(q) else None
  }

  /** y is a proper ancestor of x. */
  predicate ProperPrefix(y: Path, x: Path) {
    |y| < |x| && x[..|y|] == y
  }

  /** Decreases along parentNode and along previousSibling. */
  function Rank(p: Path): nat {
    if p == [] then 0 else Rank(p[..|p| - 1]) + p[|p| - 1] + 1
  }

  lemma {:induction false} HasAppend(t: Node, p: Path, q: Path)
    ensures Has(t, p + q) <==> Has(t, p) && Has(At(t, p), q)
    ensures Has(t, p + q) ==> At(t, p + q) == At(At(t, p), q)
    decreases |p|
  {
    if p == [] {
      assert p + q == q;
    } else {
      assert (p + q)[0] == p[0] && (p + q)[1..] == p[1..] + q;
      if p[0] < |t.kids| {
        HasAppend(t.kids[p[0]], p[1..], q);
      }
    }
  }

  lemma HasPrefix(t: Node, p: Path, n: nat)
    requires Has(t, p) && n <= |p|
    ensures Has(t, p[..n])
  {
    assert p[..n] + p[n..] == p;
    HasAppend(t, p[..n], p[n..]);
  }

  lemma HasKid(t: Node, p: Path, i: nat)
    ensures Has(t, p + [i]) <==> Has(t, p) && i < |At(t, p).kids|
    ensures Has(t, p + [i]) ==> At(t, p + [i]) == At(t, p).kids[i]
  {
    HasAppend(t, p, [i]);
    if Has(t, p) {
      var n := At(t, p);
      assert i < |n.kids| ==> Has(n.kids[i], [i][1..]);
    }
  }

  // ---- preorder ----

  function Under(i: nat, ps: seq<Path>): (r: seq<Path>)
    ensures |r| == |ps| && forall k :: 0 <= k < |ps| ==> r[k] == [i] + ps[k]
  {
    seq(|ps|, k requires 0 <= k < |ps| => [i] + ps[k])
  }

  lemma UnderMembers(i: nat, ps: seq<Path>, p: Path)
    ensures p in Under(i, ps) <==> p != [] && p[0] == i && p[1..] in ps
  {
    var r := Under(i, ps);
    assert forall k :: 0 <= k < |ps| ==> r[k][1..] == ps[k];
    if p != [] && p[0] == i && p[1..] in ps {
      var k :| 0 <= k < |ps| && ps[k] == p[1..];
      assert r[k] == p;
    }
  }

  /** All nodes of the tree in document order. */
  function Preorder(t: Node): seq<Path>
    decreases t, 1
  {
    [[]] + PreorderFrom(t, 0)
  }

  /** The nodes under the children of t from child i on, in document order. */
  function PreorderFrom(t: Node, i: nat): seq<Path>
    decreases t, 0, |t.kids| - i
  {
    if i >= |t.kids| then []
    else Under(i, Preorder(t.kids[i])) + PreorderFrom(t, i + 1)
  }

  /** Document order on paths: an ancestor comes first, otherwise the first index that differs decides. */
  predicate Before(p: Path, q: Path)
    decreases |p|
  {
    q != [] && (p == [] || p[0] < q[0] || (p[0] == q[0] && Before(p[1..], q[1..])))
  }

  ghost predicate Increasing(ps: seq<Path>) {
    forall i, j :: 0 <= i < j < |ps| ==> Before(ps[i], ps[j])
  }

  lemma {:induction false} BeforeTotal(p: Path, q: Path)
    ensures Before(p, q) || Before(q, p) || p == q
    ensures !(Before(p, q) && Before(q, p))
    ensures !Before(p, p)
    decreases |p|
  {
    if p != [] {
      BeforeTotal(p[1..], p[1..]);
      if q != [] && p[0] == q[0] {
        BeforeTotal(p[1..], q[1..]);
        assert p == [p[0]] + p[1..] && q == [q[0]] + q[1..];
      }
    }
  }

  lemma {:induction false} BeforeTransitive(p: Path, q: Path, r: Path)
    requires Before(p, q) && Before(q, r)
    ensures Before(p, r)
    decreases |p|
  {
    if p != [] && p[0] == q[0] == r[0] {
      BeforeTransitive(p[1..], q[1..], r[1..]);
    }
  }

  lemma {:induction false} PreorderComplete(t: Node, p: Path)
    ensures p in Preorder(t) <==> Has(t, p)
    decreases t, 1
  {
    PreorderFromComplete(t, 0, p);
    var rest := PreorderFrom(t, 0);
    if p == [] {
      assert Preorder(t)[0] == p;
    } else if p in rest {
      var k :| 0 <= k < |rest| && rest[k] == p;
      assert Preorder(t)[k + 1] == p;
    }
  }

  lemma {:induction false} PreorderFromComplete(t: Node, i: nat, p: Path)
    ensures p in PreorderFrom(t, i) <==> p != [] && p[0] >= i && Has(t, p)
    decreases t, 0, |t.kids| - i
  {
    if i < |t.kids| {
      PreorderFromComplete(t, i + 1, p);
      var sub := Preorder(t.kids[i]);
      UnderMembers(i, sub, p);
      if p != [] && p[0] == i {
        PreorderComplete(t.kids[i], p[1..]);
      }
    }
  }

  /** The preorder traversal lists the nodes strictly in document order. */
  lemma {:induction false} PreorderIncreasing(t: Node)
    ensures Increasing(Preorder(t))
    decreases t, 1
  {
    PreorderFromIncreasing(t, 0);
    var rest := PreorderFrom(t, 0);
    forall j | 0 <= j < |rest| ensures Before([], rest[j]) {
      PreorderFromComplete(t, 0, rest[j]);
    }
  }

  lemma {:induction false} PreorderFromIncreasing(t: Node, i: nat)
    ensures Increasing(PreorderFrom(t, i))
    decreases t, 0, |t.kids| - i
  {
    if i < |t.kids| {
      var sub := Preorder(t.kids[i]);
      var here, rest := Under(i, sub), PreorderFrom(t, i + 1);
      PreorderIncreasing(t.kids[i]);
      PreorderFromIncreasing(t, i + 1);
      forall j, k | 0 <= j < k < |here| ensures Before(here[j], here[k]) {
        assert here[j][1..] == sub[j] && here[k][1..] == sub[k];
      }
      forall j, k | 0 <= j < |here| && 0 <= k < |rest| ensures Before(here[j], rest[k]) {
        PreorderFromComplete(t, i + 1, rest[k]);
      }
    }
  }

  lemma HeadIn(ps: seq<Path>)
    ensures ps == [] || ps[0] in ps
  {
  }

  /** Two increasing lists with the same members are equal. */
  lemma {:induction false} IncreasingUnique(a: seq<Path>, b: seq<Path>)
    requires Increasing(a) && Increasing(b)
    requires forall p :: p in a <==> p in b
    ensures a == b
  {
    HeadIn(a);
    HeadIn(b);
    if a != [] {
      var k :| 0 <= k < |b| && b[k] == a[0];
      var j :| 0 <= j < |a| && a[j] == b[0];
      BeforeTotal(a[0], b[0]);
      assert a[0] == b[0];
      forall p ensures p in a[1..] <==> p in b[1..] {
        BeforeTotal(a[0], a[0]);
        if p in a[1..] {
          var i :| 1 <= i < |a| && a[i] == p;
          assert Before(a[0], p) && p in b;
          var i' :| 0 <= i' < |b| && b[i'] == p;
          assert i' != 0;
          assert b[1..][i' - 1] == p;
        }
        if p in b[1..] {
          var i :| 1 <= i < |b| && b[i] == p;
          assert Before(b[0], p) && p in a;
          var i' :| 0 <= i' < |a| && a[i'] == p;
          assert i' != 0;
          assert a[1..][i' - 1] == p;
        }
      }
      IncreasingUnique(a[1..], b[1..]);
    }
  }
}
