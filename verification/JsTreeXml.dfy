/** jsTree's get_xml("flat") and the "flat" stylesheet that turns its items back into a tree. */
module JsTreeXml {

  datatype Mode = Open | Closed | Leaf

  /** A list item: its id, its titles, the classes that are not jsTree's own, and its state class. */
  datatype Tree = Tree(id: string, names: seq<string>, cls: string, mode: Mode, kids: seq<Tree>)

  /** An <item> element. state is empty for an item that is neither open nor closed. */
  datatype Item = Item(id: string, cls: string, state: string, parentId: string, names: seq<string>)

  // ---- attribute values ----

  function Lower(c: char): char {
    if 'A' <= c <= 'Z' then (c - 'A') + 'a' else c
  }

  predicate StartsWithJstree(s: string) {
    |s| >= 6 && Lower(s[0]) == 'j' && Lower(s[1]) == 's' && Lower(s[2]) == 't' && Lower(s[3]) == 'r'
    && Lower(s[4]) == 'e' && Lower(s[5]) == 'e'
  }

  function DropWord(s: string): (r: string)
    ensures |r| <= |s|
  {
    if s == "" || s[0] == ' ' then s else DropWord(s[1..])
  }

  /** Every word, or end of a word, that starts with "jstree" is taken out. */
  function StripJstree(s: string): string
    decreases |s|
  {
    if s == "" then ""
    else if StartsWithJstree(s) then StripJstree(DropWord(s[6..]))
    else [s[0]] + StripJstree(s[1..])
  }

  /** White space in XML, which number() ignores around a number. */
  predicate IsXmlSpace(c: char) {
    c == ' ' || c == '\t' || c == '\n' || c == '\r'
  }

  /** What \s matches in a regular expression: white space and line ends of every kind. */
  predicate IsSpace(c: char) {
    || IsXmlSpace(c) || c == '\U{B}' || c == '\U{C}' || c == '\U{A0}' || c == '\U{1680}'
    || '\U{2000}' <= c <= '\U{200A}' || c == '\U{2028}' || c == '\U{2029}' || c == '\U{202F}'
    || c == '\U{205F}' || c == '\U{3000}' || c == '\U{FEFF}'
  }

  predicate Blank(s: string) {
    forall i :: 0 <= i < |s| ==> IsSpace(s[i])
  }

  /** What get_xml writes for an attribute. */
  function Clean(s: string): string {
    var r := StripJstree(s);
    if Blank(r) then "" else r
  }

  predicate NoJstree(s: string) {
    forall i :: 0 <= i < |s| ==> !StartsWithJstree(s[i..])
  }

  lemma {:induction false} StripNothing(s: string)
    requires NoJstree(s)
    ensures StripJstree(s) == s
  {
    if s != "" {
      assert s[0..] == s;
      forall i | 0 <= i < |s[1..]| ensures !StartsWithJstree(s[1..][i..]) { assert s[1..][i..] == s[i + 1..]; }
      StripNothing(s[1..]);
    }
  }

  /** The character at i belongs to a "jstree", or follows one without a space in between. */
  ghost predicate Dropped(s: string, i: nat)
    requires i < |s|
  {
    exists j :: 0 <= j <= i && StartsWithJstree(s[j..]) && ' ' !in s[j..i + 1]
  }

  /** The characters from k on that do not. */
  ghost function KeptFrom(s: string, k: nat): string
    requires k <= |s|
    decreases |s| - k
  {
    if k == |s| then ""
    else if Dropped(s, k) then KeptFrom(s, k + 1)
    else [s[k]] + KeptFrom(s, k + 1)
  }

  /** No "jstree" before k reaches as far as k. */
  ghost predicate Outside(s: string, k: nat)
    requires k <= |s|
  {
    forall j :: 0 <= j < k && StartsWithJstree(s[j..]) ==> ' ' in s[j..k]
  }

  /** The replacement leaves exactly the characters that no "jstree" reaches. */
  lemma {:induction false} StripMeaning(s: string, k: nat)
    requires k <= |s| && Outside(s, k)
    ensures StripJstree(s[k..]) == KeptFrom(s, k)
    decreases |s| - k
  {
    if k < |s| {
      if StartsWithJstree(s[k..]) {
        assert s[k..][6..] == s[k + 6..];
        var m := WordEnd(s, k + 6);
        SkipDropped(s, k, m);
        if m < |s| { PastSpace(s, m); }
      } else {
        KeepOne(s, k);
        StripMeaning(s, k + 1);
      }
    }
  }

  /** A space is always kept, and nothing before it reaches past it. */
  lemma {:induction false} PastSpace(s: string, m: nat)
    requires m < |s| && s[m] == ' '
    ensures StripJstree(s[m..]) == KeptFrom(s, m)
    decreases |s| - m, 0
  {
    forall j | 0 <= j <= m && StartsWithJstree(s[j..]) ensures ' ' in s[j..m + 1] { assert s[j..m + 1][m - j] == ' '; }
    assert !StartsWithJstree(s[m..]) && s[m..][1..] == s[m + 1..];
    StripMeaning(s, m + 1);
  }

  lemma KeepOne(s: string, k: nat)
    requires k < |s| && Outside(s, k) && !StartsWithJstree(s[k..])
    ensures !Dropped(s, k) && Outside(s, k + 1) && StripJstree(s[k..]) == [s[k]] + StripJstree(s[k + 1..])
  {
    assert s[k..][1..] == s[k + 1..];
    forall j | 0 <= j < k && StartsWithJstree(s[j..]) ensures ' ' in s[j..k + 1] {
      assert s[j..k + 1] == s[j..k] + [s[k]];
    }
  }

  /** Where the word ends that k is in. */
  lemma {:induction false} WordEnd(s: string, k: nat) returns (m: nat)
    requires k <= |s|
    ensures k <= m <= |s| && DropWord(s[k..]) == s[m..] && ' ' !in s[k..m] && (m < |s| ==> s[m] == ' ')
    decreases |s| - k
  {
    m := k;
    if k < |s| && s[k] != ' ' {
      assert s[k..][1..] == s[k + 1..];
      m := WordEnd(s, k + 1);
      assert s[k..m] == [s[k]] + s[k + 1..m];
    }
  }

  lemma SkipDropped(s: string, k: nat, m: nat)
    requires k + 6 <= m <= |s| && StartsWithJstree(s[k..]) && ' ' !in s[k + 6..m]
    ensures KeptFrom(s, k) == KeptFrom(s, m)
  {
    assert s[k..m] == s[k..][..6] + s[k + 6..m];
    SkipTo(s, k, k, m);
  }

  lemma {:induction false} SkipTo(s: string, start: nat, k: nat, m: nat)
    requires start <= k <= m <= |s| && StartsWithJstree(s[start..]) && ' ' !in s[start..m]
    ensures KeptFrom(s, k) == KeptFrom(s, m)
    decreases m - k
  {
    if k < m {
      SkipOne(s, start, k, m);
      SkipTo(s, start, k + 1, m);
    }
  }

  lemma SkipOne(s: string, start: nat, k: nat, m: nat)
    requires start <= k < m <= |s| && StartsWithJstree(s[start..]) && ' ' !in s[start..m]
    ensures KeptFrom(s, k) == KeptFrom(s, k + 1)
  {
    assert s[start..m] == s[start..k + 1] + s[k + 1..m];
    assert Dropped(s, k);
  }

  function TrimLeft(s: string): (r: string)
    ensures |r| <= |s|
  {
    if s != "" && IsXmlSpace(s[0]) then TrimLeft(s[1..]) else s
  }

  function TrimRight(s: string): string {
    if s != "" && IsXmlSpace(s[|s| - 1]) then TrimRight(s[..|s| - 1]) else s
  }

  /** The number XPath makes of s is zero: digits 0 with at most one point and one minus sign. */
  predicate NumericZero(s: string) {
    var t := TrimRight(TrimLeft(s));
    var d := if t != "" && t[0] == '-' then t[1..] else t;
    && '0' in d
    && (forall i :: 0 <= i < |d| ==> d[i] == '0' || d[i] == '.')
    && (forall i, j :: 0 <= i < j < |d| && d[i] == '.' ==> d[j] != '.')
  }

  // ---- exporting ----

  function StateOf(m: Mode): string {
    match m case Open => "open" case Closed => "closed" case Leaf => ""
  }

  /** The item written for a node; its parent's id is written as it stands. */
  function ItemOf(t: Tree, parentId: string): Item {
    Item(Clean(t.id), Clean(t.cls), StateOf(t.mode), parentId, t.names)
  }

  /** The items of a forest in preorder. */
  function Export(ts: seq<Tree>, parentId: string): seq<Item>
    decreases ts
  {
    if ts == [] then []
    else [ItemOf(ts[0], parentId)] + Export(ts[0].kids, ts[0].id) + Export(ts[1..], parentId)
  }

  lemma ExportStep(result: seq<Item>, ts: seq<Tree>, i: nat, parentId: string)
    requires i < |ts|
    ensures result + Export(ts[i..], parentId)
            == result + [ItemOf(ts[i], parentId)] + Export(ts[i].kids, ts[i].id) + Export(ts[i + 1..], parentId)
  {
    var rest := ts[i..];
    assert rest[0] == ts[i] && rest[1..] == ts[i + 1..];
    var a, b, c := [ItemOf(ts[i], parentId)], Export(ts[i].kids, ts[i].id), Export(ts[i + 1..], parentId);
    Regroup(result, a, b, c);
  }

  lemma Regroup(r: seq<Item>, a: seq<Item>, b: seq<Item>, c: seq<Item>)
    ensures r + (a + b + c) == r + a + b + c
  {
  }

  /** get_xml: a loop over the nodes, and a call of its own for the children of each. */
  method GetXml(ts: seq<Tree>, parentId: string) returns (result: seq<Item>)
    ensures result == Export(ts, parentId)
    decreases ts
  {
    result := [];
    var i := 0;
    while i < |ts|
      invariant 0 <= i <= |ts|
      invariant result + Export(ts[i..], parentId) == Export(ts, parentId)
    {
      ExportStep(result, ts, i, parentId);
      result := result + [ItemOf(ts[i], parentId)];
      var below: seq<Item> := [];
      if |ts[i].kids| > 0 {
        below := GetXml(ts[i].kids, ts[i].id);
      }
      result := result + below;
      i := i + 1;
    }
    assert ts[i..] == [];
  }

  // ---- rebuilding ----

  function WithParent(items: seq<Item>, id: string): seq<Item> {
    if items == [] then []
    else (if items[0].parentId == id then [items[0]] else []) + WithParent(items[1..], id)
  }

  predicate HasId(items: seq<Item>, id: string) {
    exists i :: 0 <= i < |items| && items[i].id == id
  }

  /** An item belongs at the top if its parent is a zero, or none of the items. */
  predicate IsRoot(all: seq<Item>, item: Item) {
    NumericZero(item.parentId) || !HasId(all, item.parentId)
  }

  function Roots(all: seq<Item>, items: seq<Item>): seq<Item> {
    if items == [] then []
    else (if IsRoot(all, items[0]) then [items[0]] else []) + Roots(all, items[1..])
  }

  /** The "nodes" template, to the given depth of recursion. */
  function Build(all: seq<Item>, item: Item, depth: nat): Tree
    decreases depth, 1
  {
    var children := WithParent(all, item.id);
    var mode := if item.state == "open" then Open
                else if children != [] || item.state == "closed" then Closed
                else Leaf;
    Tree(item.id, item.names, item.cls, mode, if depth == 0 then [] else BuildAll(all, children, depth - 1))
  }

  function BuildAll(all: seq<Item>, items: seq<Item>, depth: nat): seq<Tree>
    decreases depth, 2, |items|
  {
    if items == [] then [] else [Build(all, items[0], depth)] + BuildAll(all, items[1..], depth)
  }

  /** The stylesheet. */
  function Rebuild(items: seq<Item>, depth: nat): seq<Tree> {
    BuildAll(items, Roots(items, items), depth)
  }

  // ---- what comes back ----

  /** A leaf that has children comes back closed. */
  function Normal(ts: seq<Tree>): seq<Tree>
    decreases ts
  {
    if ts == [] then []
    else
      var t := ts[0];
      [Tree(t.id, t.names, t.cls, if t.mode == Leaf && t.kids != [] then Closed else t.mode, Normal(t.kids))]
      + Normal(ts[1..])
  }

  function Height(ts: seq<Tree>): nat
    decreases ts
  {
    if ts == [] then 0
    else
      var a, b := 1 + Height(ts[0].kids), Height(ts[1..]);
      if a > b then a else b
  }

  function Ids(ts: seq<Tree>): seq<string>
    decreases ts
  {
    if ts == [] then [] else [ts[0].id] + Ids(ts[0].kids) + Ids(ts[1..])
  }

  /** The ids are distinct, not blank and free of "jstree"; the classes are as free of it. */
  predicate WellNamed(ts: seq<Tree>)
    decreases ts
  {
    if ts == [] then true
    else
      var t := ts[0];
      && NoJstree(t.id) && !Blank(t.id)
      && NoJstree(t.cls) && (t.cls == "" || !Blank(t.cls))
      && t.id !in Ids(t.kids) && t.id !in Ids(ts[1..])
      && (forall x :: x in Ids(t.kids) ==> x !in Ids(ts[1..]))
      && WellNamed(t.kids) && WellNamed(ts[1..])
  }

  /** No node is called "0", and no node that has children is called by a number that is zero. */
  predicate ZeroFree(ts: seq<Tree>)
    decreases ts
  {
    if ts == [] then true
    else
      && ts[0].id != "0" && (ts[0].kids != [] ==> !NumericZero(ts[0].id))
      && ZeroFree(ts[0].kids) && ZeroFree(ts[1..])
  }

  /** Every node with children is open or closed. */
  predicate Marked(ts: seq<Tree>)
    decreases ts
  {
    ts == [] || ((ts[0].kids != [] ==> ts[0].mode != Leaf) && Marked(ts[0].kids) && Marked(ts[1..]))
  }

  lemma {:induction false} NormalIsSame(ts: seq<Tree>)
    ensures |Normal(ts)| == |ts|
    ensures Normal(ts) == ts <==> Marked(ts)
    decreases ts
  {
    if ts != [] {
      NormalIsSame(ts[0].kids);
      NormalIsSame(ts[1..]);
      assert ts == [ts[0]] + ts[1..];
      assert Normal(ts)[0].kids == Normal(ts[0].kids) && Normal(ts)[1..] == Normal(ts[1..]);
    }
  }

  lemma CleanSame(s: string)
    requires NoJstree(s) && (s == "" || !Blank(s))
    ensures Clean(s) == s
  {
    StripNothing(s);
  }

  lemma {:induction false} WithParentAppend(a: seq<Item>, b: seq<Item>, id: string)
    ensures WithParent(a + b, id) == WithParent(a, id) + WithParent(b, id)
  {
    if a == [] {
      assert a + b == b;
    } else {
      assert (a + b)[1..] == a[1..] + b;
      WithParentAppend(a[1..], b, id);
      var here := if a[0].parentId == id then [a[0]] else [];
      assert here + (WithParent(a[1..], id) + WithParent(b, id)) == here + WithParent(a[1..], id) + WithParent(b, id);
    }
  }

  /** The items of the nodes of ts themselves. */
  function Tops(ts: seq<Tree>, parentId: string): seq<Item> {
    if ts == [] then [] else [ItemOf(ts[0], parentId)] + Tops(ts[1..], parentId)
  }

  lemma WithParentExport(ts: seq<Tree>, p: string, id: string)
    requires ts != []
    ensures WithParent(Export(ts, p), id) ==
              (if p == id then [ItemOf(ts[0], p)] else []) + WithParent(Export(ts[0].kids, ts[0].id), id)
              + WithParent(Export(ts[1..], p), id)
  {
    var here, below, rest := [ItemOf(ts[0], p)], Export(ts[0].kids, ts[0].id), Export(ts[1..], p);
    WithParentAppend(here + below, rest, id);
    WithParentAppend(here, below, id);
    assert here[1..] == [];
  }

  /** An id that occurs nowhere in the forest has the forest's own nodes as children, if they hang below it. */
  lemma {:induction false} ForeignParent(ts: seq<Tree>, p: string, id: string)
    requires id !in Ids(ts)
    ensures WithParent(Export(ts, p), id) == if p == id then Tops(ts, p) else []
    decreases ts
  {
    if ts != [] {
      OtherIds(ts, id);
      WithParentExport(ts, p, id);
      ForeignParent(ts[0].kids, ts[0].id, id);
      ForeignParent(ts[1..], p, id);
      var here := if p == id then [ItemOf(ts[0], p)] else [];
      assert here + [] == here;
    }
  }

  lemma OtherIds(ts: seq<Tree>, id: string)
    requires ts != [] && id !in Ids(ts)
    ensures id != ts[0].id && id !in Ids(ts[0].kids) && id !in Ids(ts[1..])
  {
    var a, b, c := [ts[0].id], Ids(ts[0].kids), Ids(ts[1..]);
    assert Ids(ts) == a + b + c;
    assert a[0] in a;
  }

  predicate Within(t: Tree, ts: seq<Tree>)
    decreases ts
  {
    ts != [] && (t == ts[0] || Within(t, ts[0].kids) || Within(t, ts[1..]))
  }

  lemma {:induction false} WithinId(t: Tree, ts: seq<Tree>)
    requires Within(t, ts)
    ensures t.id in Ids(ts)
    ensures WellNamed(ts) ==> WellNamed([t])
    decreases ts
  {
    assert [t][1..] == [] && [t][0] == t;
    if t != ts[0] {
      if Within(t, ts[0].kids) { WithinId(t, ts[0].kids); } else { WithinId(t, ts[1..]); }
    }
  }

  /** The items whose parent is a node of the forest are the items of its children, in order. */
  lemma {:induction false} ChildrenFound(ts: seq<Tree>, p: string, t: Tree)
    requires WellNamed(ts) && Within(t, ts) && p !in Ids(ts)
    ensures WithParent(Export(ts, p), t.id) == Tops(t.kids, t.id)
    decreases ts
  {
    WithinId(t, ts);
    WithParentExport(ts, p, t.id);
    var h := ts[0];
    if t == h {
      ForeignParent(h.kids, h.id, h.id);
      ForeignParent(ts[1..], p, h.id);
    } else if Within(t, h.kids) {
      WithinId(t, h.kids);
      ChildrenFound(h.kids, h.id, t);
      ForeignParent(ts[1..], p, t.id);
    } else {
      WithinId(t, ts[1..]);
      ForeignParent(h.kids, h.id, t.id);
      ChildrenFound(ts[1..], p, t);
    }
  }

  lemma {:induction false} KidsWithin(ts: seq<Tree>, t: Tree, k: nat)
    requires Within(t, ts) && k < |t.kids|
    ensures Within(t.kids[k], ts)
    decreases ts
  {
    if t == ts[0] {
      MemberWithin(t.kids, k);
    } else if Within(t, ts[0].kids) {
      KidsWithin(ts[0].kids, t, k);
    } else {
      KidsWithin(ts[1..], t, k);
    }
  }

  lemma {:induction false} MemberWithin(ts: seq<Tree>, k: nat)
    requires k < |ts|
    ensures Within(ts[k], ts)
  {
    if k > 0 { MemberWithin(ts[1..], k - 1); }
  }

  /** What the names of the forest guarantee for one of its nodes. */
  lemma {:induction false} NodeFacts(ts: seq<Tree>, t: Tree)
    requires WellNamed(ts) && Within(t, ts)
    ensures Clean(t.id) == t.id && Clean(t.cls) == t.cls
    decreases ts
  {
    if t == ts[0] {
      CleanSame(t.id);
      CleanSame(t.cls);
    } else if Within(t, ts[0].kids) {
      NodeFacts(ts[0].kids, t);
    } else {
      NodeFacts(ts[1..], t);
    }
  }

  lemma BuildOne(items: seq<Item>, t: Tree, p: string, depth: nat)
    requires Clean(t.id) == t.id && Clean(t.cls) == t.cls
    requires WithParent(items, t.id) == Tops(t.kids, t.id)
    requires if depth > 0 then BuildAll(items, Tops(t.kids, t.id), depth - 1) == Normal(t.kids) else t.kids == []
    ensures Build(items, ItemOf(t, p), depth)
         == Tree(t.id, t.names, t.cls, if t.mode == Leaf && t.kids != [] then Closed else t.mode, Normal(t.kids))
  {
  }

  /** Building the items of some nodes of the forest gives those nodes back. */
  lemma {:induction false} BuildTops(all: seq<Tree>, ts: seq<Tree>, p: string, depth: nat)
    requires WellNamed(all) && "0" !in Ids(all)
    requires forall k :: 0 <= k < |ts| ==> Within(ts[k], all)
    requires depth + 1 >= Height(ts)
    ensures BuildAll(Export(all, "0"), Tops(ts, p), depth) == Normal(ts)
    decreases ts, 0
  {
    if ts != [] {
      var t, items := ts[0], Export(all, "0");
      NodeFacts(all, t);
      ChildrenFound(all, "0", t);
      assert forall k :: 0 <= k < |ts[1..]| ==> ts[1..][k] == ts[k + 1];
      BuildTops(all, ts[1..], p, depth);
      BuildKids(all, t, depth);
      BuildOne(items, t, p, depth);
      assert Tops(ts, p)[1..] == Tops(ts[1..], p);
    }
  }

  lemma {:induction false} BuildKids(all: seq<Tree>, t: Tree, depth: nat)
    requires WellNamed(all) && "0" !in Ids(all) && Within(t, all) && depth >= Height(t.kids)
    ensures depth == 0 ==> t.kids == []
    ensures depth > 0 ==> BuildAll(Export(all, "0"), Tops(t.kids, t.id), depth - 1) == Normal(t.kids)
    decreases t.kids, 1
  {
    forall k | 0 <= k < |t.kids| ensures Within(t.kids[k], all) { KidsWithin(all, t, k); }
    if depth > 0 {
      BuildTops(all, t.kids, t.id, depth - 1);
    }
  }

  // ---- the roots ----

  lemma {:induction false} RootsAppend(all: seq<Item>, a: seq<Item>, b: seq<Item>)
    ensures Roots(all, a + b) == Roots(all, a) + Roots(all, b)
  {
    if a == [] {
      assert a + b == b;
    } else {
      assert (a + b)[1..] == a[1..] + b;
      RootsAppend(all, a[1..], b);
      var here := if IsRoot(all, a[0]) then [a[0]] else [];
      assert here + (Roots(all, a[1..]) + Roots(all, b)) == here + Roots(all, a[1..]) + Roots(all, b);
    }
  }

  lemma HasIdAppend(a: seq<Item>, b: seq<Item>, c: seq<Item>, id: string)
    ensures HasId(a + b + c, id) <==> HasId(a, id) || HasId(b, id) || HasId(c, id)
  {
    var s := a + b + c;
    assert forall i :: 0 <= i < |a| ==> s[i] == a[i];
    assert forall i :: 0 <= i < |b| ==> s[|a| + i] == b[i];
    assert forall i :: 0 <= i < |c| ==> s[|a| + |b| + i] == c[i];
  }

  lemma {:induction false} ExportedIds(ts: seq<Tree>, p: string, id: string)
    requires WellNamed(ts) && id in Ids(ts)
    ensures HasId(Export(ts, p), id)
    decreases ts
  {
    var t := ts[0];
    HasIdAppend([ItemOf(t, p)], Export(t.kids, t.id), Export(ts[1..], p), id);
    if id == t.id {
      CleanSame(t.id);
      assert [ItemOf(t, p)][0].id == id;
    } else if id in Ids(t.kids) {
      ExportedIds(t.kids, t.id, id);
    } else {
      ExportedIds(ts[1..], p, id);
    }
  }

  lemma RootsStep(items: seq<Item>, ts: seq<Tree>, p: string)
    requires ts != []
    ensures Roots(items, Export(ts, p)) ==
              (if NumericZero(p) || !HasId(items, p) then [ItemOf(ts[0], p)] else [])
              + Roots(items, Export(ts[0].kids, ts[0].id)) + Roots(items, Export(ts[1..], p))
  {
    var here, below, rest := [ItemOf(ts[0], p)], Export(ts[0].kids, ts[0].id), Export(ts[1..], p);
    RootsAppend(items, here + below, rest);
    RootsAppend(items, here, below);
    assert here[1..] == [];
  }

  /** Of a part of the export, the roots are its top nodes if they hang below a zero, and otherwise none. */
  lemma {:induction false} RootsFound(items: seq<Item>, ts: seq<Tree>, p: string)
    requires ZeroFree(ts) && forall x :: x in Ids(ts) ==> HasId(items, x)
    requires NumericZero(p) || HasId(items, p)
    ensures Roots(items, Export(ts, p)) == if NumericZero(p) then Tops(ts, p) else []
    decreases ts
  {
    if ts != [] {
      var t := ts[0];
      RootsStep(items, ts, p);
      IdsParts(ts);
      RootsFound(items, t.kids, t.id);
      RootsFound(items, ts[1..], p);
      NothingBetween(if NumericZero(p) then [ItemOf(t, p)] else [], Roots(items, Export(t.kids, t.id)),
                     Roots(items, Export(ts[1..], p)));
    }
  }

  lemma NothingBetween(a: seq<Item>, b: seq<Item>, c: seq<Item>)
    requires b == []
    ensures a + b + c == a + c
  {
  }

  lemma IdsParts(ts: seq<Tree>)
    requires ts != []
    ensures ts[0].id in Ids(ts)
    ensures forall x :: x in Ids(ts[0].kids) ==> x in Ids(ts)
    ensures forall x :: x in Ids(ts[1..]) ==> x in Ids(ts)
  {
  }

  lemma {:induction false} NoneIsZero(ts: seq<Tree>)
    requires ZeroFree(ts)
    ensures "0" !in Ids(ts)
    decreases ts
  {
    if ts != [] {
      NoneIsZero(ts[0].kids);
      NoneIsZero(ts[1..]);
    }
  }

  // ---- when there is a zero ----

  /** Some node with children is called by a number that is zero. */
  predicate ZeroParent(ts: seq<Tree>)
    decreases ts
  {
    ts != [] && ((ts[0].kids != [] && NumericZero(ts[0].id)) || ZeroParent(ts[0].kids) || ZeroParent(ts[1..]))
  }

  lemma {:induction false} NotZeroFree(ts: seq<Tree>)
    ensures ZeroFree(ts) <==> "0" !in Ids(ts) && !ZeroParent(ts)
    decreases ts
  {
    if ts != [] {
      NotZeroFree(ts[0].kids);
      NotZeroFree(ts[1..]);
    }
  }

  /** The children of such a node are roots too, over and above the top nodes. */
  lemma {:induction false} SpareRoots(items: seq<Item>, ts: seq<Tree>, p: string)
    ensures |Roots(items, Export(ts, p))| >= (if NumericZero(p) then |ts| else 0) + (if ZeroParent(ts) then 1 else 0)
    decreases ts
  {
    if ts != [] {
      RootsStep(items, ts, p);
      SpareRoots(items, ts[0].kids, ts[0].id);
      SpareRoots(items, ts[1..], p);
    }
  }

  lemma {:induction false} BuildAllLength(all: seq<Item>, items: seq<Item>, depth: nat)
    ensures |BuildAll(all, items, depth)| == |items|
    decreases |items|
  {
    if items != [] { BuildAllLength(all, items[1..], depth); }
  }

  lemma {:induction false} HighestOf(all: seq<Item>, items: seq<Item>, i: nat, depth: nat)
    requires i < |items|
    ensures Height(BuildAll(all, items, depth)) >= Height([Build(all, items[i], depth)])
    decreases i
  {
    var one := [Build(all, items[i], depth)];
    assert one[0] == Build(all, items[i], depth) && one[1..] == [];
    assert BuildAll(all, items, depth)[1..] == BuildAll(all, items[1..], depth);
    if i > 0 { HighestOf(all, items[1..], i - 1, depth); }
  }

  lemma HighestMember(all: seq<Item>, items: seq<Item>, item: Item, depth: nat)
    requires item in items
    ensures Height(BuildAll(all, items, depth)) >= Height([Build(all, item, depth)])
  {
    var i :| 0 <= i < |items| && items[i] == item;
    HighestOf(all, items, i, depth);
  }

  /** The item of the k-th node of a forest is exported, and found among those with its parent's id. */
  lemma {:induction false} TopExported(ts: seq<Tree>, p: string, k: nat)
    requires k < |ts|
    ensures ItemOf(ts[k], p) in Export(ts, p)
  {
    if k > 0 { TopExported(ts[1..], p, k - 1); }
  }

  /** So is the item of the k-th child of any node of the forest. */
  lemma {:induction false} KidExported(ts: seq<Tree>, p: string, t: Tree, k: nat)
    requires Within(t, ts) && k < |t.kids|
    ensures ItemOf(t.kids[k], t.id) in Export(ts, p)
    decreases ts
  {
    if t == ts[0] {
      TopExported(t.kids, t.id, k);
    } else if Within(t, ts[0].kids) {
      KidExported(ts[0].kids, ts[0].id, t, k);
    } else {
      KidExported(ts[1..], p, t, k);
    }
  }

  lemma {:induction false} WithParentHas(items: seq<Item>, id: string, item: Item)
    ensures item in WithParent(items, id) <==> item in items && item.parentId == id
  {
    if items != [] { WithParentHas(items[1..], id, item); }
  }

  lemma {:induction false} RootsHas(all: seq<Item>, items: seq<Item>, item: Item)
    ensures item in Roots(all, items) <==> item in items && IsRoot(all, item)
  {
    if items != [] { RootsHas(all, items[1..], item); }
  }

  /** The node of the list that is, or contains, the one called "0". */
  lemma {:induction false} ZeroAbove(ts: seq<Tree>) returns (k: nat)
    requires "0" in Ids(ts)
    ensures k < |ts| && (ts[k].id == "0" || "0" in Ids(ts[k].kids))
  {
    if ts[0].id == "0" || "0" in Ids(ts[0].kids) {
      k := 0;
    } else {
      k := ZeroAbove(ts[1..]);
      k := k + 1;
    }
  }

  /** From this node the recursion goes on towards a node called "0", or from that node to the top. */
  ghost predicate OnTheWay(all: seq<Tree>, t: Tree) {
    Within(t, all) && (t.id == "0" || "0" in Ids(t.kids))
  }

  /** The height of what is built for the node. */
  ghost function Reach(all: seq<Tree>, t: Tree, p: string, depth: nat): (h: nat)
    ensures h > 0
  {
    SingleHeight(Build(Export(all, "0"), ItemOf(t, p), depth));
    Height([Build(Export(all, "0"), ItemOf(t, p), depth)])
  }

  /** A node called "0" has all top nodes for children, so building it, or a node above it, goes on to any depth. */
  lemma {:induction false} BuildsForever(all: seq<Tree>, t: Tree, p: string, depth: nat)
    requires WellNamed(all) && OnTheWay(all, t)
    ensures Reach(all, t, p, depth) > depth
    decreases depth
  {
    if depth > 0 {
      var next := StepTowardsZero(all, t, p, depth - 1);
      BuildsForever(all, next, t.id, depth - 1);
    }
  }

  lemma StepTowardsZero(all: seq<Tree>, t: Tree, p: string, depth: nat) returns (next: Tree)
    requires WellNamed(all) && OnTheWay(all, t)
    ensures OnTheWay(all, next) && Reach(all, t, p, depth + 1) > Reach(all, next, t.id, depth)
  {
    next := NextTowardsZero(all, t);
    KidLower(Export(all, "0"), t, p, next, depth);
  }

  lemma KidLower(items: seq<Item>, t: Tree, p: string, next: Tree, depth: nat)
    requires Clean(t.id) == t.id && ItemOf(next, t.id) in items
    ensures Height([Build(items, ItemOf(t, p), depth + 1)]) > Height([Build(items, ItemOf(next, t.id), depth)])
  {
    WithParentHas(items, t.id, ItemOf(next, t.id));
    ChildLower(items, ItemOf(t, p), ItemOf(next, t.id), depth);
  }

  /** The node from which the way goes on: a top node from "0" itself, and otherwise the child nearer to "0". */
  lemma NextTowardsZero(all: seq<Tree>, t: Tree) returns (next: Tree)
    requires Within(t, all) && (t.id == "0" || "0" in Ids(t.kids))
    ensures Within(next, all) && (next.id == "0" || "0" in Ids(next.kids))
    ensures ItemOf(next, t.id) in Export(all, "0") && (WellNamed(all) ==> Clean(t.id) == t.id)
  {
    if WellNamed(all) { NodeFacts(all, t); }
    if t.id == "0" {
      WithinId(t, all);
      var k := ZeroAbove(all);
      MemberWithin(all, k);
      TopExported(all, "0", k);
      next := all[k];
    } else {
      var k := ZeroAbove(t.kids);
      KidsWithin(all, t, k);
      KidExported(all, "0", t, k);
      next := t.kids[k];
    }
  }

  lemma SingleHeight(t: Tree)
    ensures Height([t]) == 1 + Height(t.kids)
  {
    assert [t][0] == t && [t][1..] == [];
  }

  /** What is built for an item is higher than what is built for each of its children, with one level less to go. */
  lemma ChildLower(items: seq<Item>, item: Item, child: Item, depth: nat)
    requires child in WithParent(items, item.id)
    ensures Height([Build(items, item, depth + 1)]) > Height([Build(items, child, depth)])
  {
    HighestMember(items, WithParent(items, item.id), child, depth);
    BuiltHeight(items, item, depth);
  }

  lemma BuiltHeight(items: seq<Item>, item: Item, depth: nat)
    ensures Height([Build(items, item, depth + 1)]) == 1 + Height(BuildAll(items, WithParent(items, item.id), depth))
  {
    SingleHeight(Build(items, item, depth + 1));
  }

  /** With a node called "0" the stylesheet never comes to an end: whatever depth of recursion is allowed is reached. */
  lemma ZeroIdNeverEnds(ts: seq<Tree>, depth: nat)
    requires WellNamed(ts) && "0" in Ids(ts)
    ensures Height(Rebuild(Export(ts, "0"), depth)) > depth
  {
    var items := Export(ts, "0");
    var k := ZeroAbove(ts);
    MemberWithin(ts, k);
    TopExported(ts, "0", k);
    ZeroIsZero();
    var item := ItemOf(ts[k], "0");
    RootsHas(items, items, item);
    BuildsForever(ts, ts[k], "0", depth);
    HighestMember(items, Roots(items, items), item, depth);
  }

  /** With a node that has children and is called by some other zero, more nodes come back at the top than there
      were. */
  lemma ZeroParentSplits(ts: seq<Tree>, depth: nat)
    requires ZeroParent(ts)
    ensures |Rebuild(Export(ts, "0"), depth)| > |ts|
  {
    var items := Export(ts, "0");
    ZeroIsZero();
    SpareRoots(items, ts, "0");
    BuildAllLength(items, Roots(items, items), depth);
  }

  lemma ZeroIsZero()
    ensures NumericZero("0")
  {
    assert TrimLeft("0") == "0" && TrimRight("0") == "0";
    assert "0"[0] == '0';
  }

  /** Exporting a forest and applying the stylesheet, whatever depth of recursion is allowed beyond the forest's
      height, gives it back but for leaves with children, which come back closed, exactly when no zero is in the way;
      it comes back unchanged exactly when moreover there are no such leaves. */
  lemma RoundTrip(ts: seq<Tree>, depth: nat)
    requires WellNamed(ts) && depth >= Height(ts)
    ensures Rebuild(Export(ts, "0"), depth) == Normal(ts) <==> ZeroFree(ts)
    ensures Rebuild(Export(ts, "0"), depth) == ts <==> ZeroFree(ts) && Marked(ts)
  {
    NormalIsSame(ts);
    NormalHeight(ts);
    NotZeroFree(ts);
    if ZeroFree(ts) {
      ZeroFreeTrip(ts, depth);
    } else if "0" in Ids(ts) {
      ZeroIdNeverEnds(ts, depth);
    } else {
      ZeroParentSplits(ts, depth);
    }
  }

  lemma ZeroFreeTrip(ts: seq<Tree>, depth: nat)
    requires WellNamed(ts) && ZeroFree(ts) && depth >= Height(ts)
    ensures Rebuild(Export(ts, "0"), depth) == Normal(ts)
  {
    ZeroIsZero();
    NoneIsZero(ts);
    forall x | x in Ids(ts) ensures HasId(Export(ts, "0"), x) { ExportedIds(ts, "0", x); }
    RootsFound(Export(ts, "0"), ts, "0");
    forall k | 0 <= k < |ts| ensures Within(ts[k], ts) { MemberWithin(ts, k); }
    BuildTops(ts, ts, "0", depth);
  }

  lemma {:induction false} NormalHeight(ts: seq<Tree>)
    ensures Height(Normal(ts)) == Height(ts)
    decreases ts
  {
    if ts != [] {
      NormalHeight(ts[0].kids);
      NormalHeight(ts[1..]);
      assert Normal(ts)[1..] == Normal(ts[1..]);
    }
  }
}
