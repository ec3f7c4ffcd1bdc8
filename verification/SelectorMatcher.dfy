/** Sizzle's compiled matchers: right-to-left walks whose outcome is memoised on the visited nodes. */
module SelectorMatcher {
  import opened Dom
  import opened Wrappers
  import opened Selectors

  datatype Dir = ParentNode | PreviousSibling

  function DirOf(c: Combinator): Dir {
    if c == Descendant || c == Child then ParentNode else PreviousSibling
  }

  predicate First(c: Combinator) {
    c == Child || c == Adjacent
  }

  function Step(d: Dir, x: Path): Option<Path> {
    if d == ParentNode then Parent(x) else Dom.PreviousSibling(x)
  }

  lemma StepDown(t: Node, d: Dir, x: Path)
    requires Step(d, x).Some?
    ensures Rank(Step(d, x).value) < Rank(x)
    ensures Has(t, x) ==> Has(t, Step(d, x).value)
  {
    var n := |x| - 1;
    var y := Step(d, x).value;
    if d == PreviousSibling {
      assert y[..n] == x[..n];
    }
    if Has(t, x) {
      assert x == x[..n] + [x[n]];
      HasKid(t, x[..n], x[n]);
      if d == PreviousSibling { HasKid(t, x[..n], x[n] - 1); }
    }
  }

  /** elementMatcher over [head] + filters; the head is the check against the context or a combinator's walk.
      name is the combinator's doneName. */
  datatype Compound = Compound(head: Head, filters: seq<nat>)

  datatype Head =
    | Context(lead: Option<Combinator>, name: nat)
    | After(comb: Combinator, name: nat, left: Compound)

  function Lead(m: Compound): Option<Combinator> {
    match m.head
    case Context(lead, _) => lead
    case After(_, _, left) => Lead(left)
  }

  function AsTokens(fs: seq<nat>): (r: seq<Token>)
    ensures |r| == |fs| && forall i :: 0 <= i < |fs| ==> r[i] == Filter(fs[i])
  {
    seq(|fs|, i requires 0 <= i < |fs| => Filter(fs[i]))
  }

  function HeadTokens(h: Head): seq<Token> {
    match h
    case Context(_, _) => []
    case After(c, _, left) => Tokens(left) + [Comb(c)]
  }

  /** The tokens a compiled matcher stands for. */
  function Tokens(m: Compound): seq<Token> {
    HeadTokens(m.head) + AsTokens(m.filters)
  }

  // ---- the walk a combinator makes, uncached ----

  /** What a walk looks for: the context, or a node the left part accepts. */
  datatype Walk = ToContext(comb: Combinator) | ToLeft(comb: Combinator, left: Compound)

  function WalkOf(h: Head): Walk {
    match h
    case Context(lead, _) => ToContext(if lead.Some? then lead.value else Descendant)
    case After(c, _, left) => ToLeft(c, left)
  }

  ghost predicate Accepts(env: Env, m: Compound, x: Path) {
    Matches(env, Lead(m), Tokens(m), x)
  }

  ghost predicate Hit(env: Env, w: Walk, y: Path) {
    match w
    case ToContext(_) => y == env.context
    case ToLeft(_, left) => Accepts(env, left, y)
  }

  /** The walk looks at elements, and on its way to the context at any ancestor. */
  predicate Eligible(env: Env, w: Walk, y: Path) {
    IsElement(env.tree, y) || (w.ToContext? && DirOf(w.comb) == ParentNode)
  }

  /** Walking from x finds a hit: at any eligible node, or only at the first one. */
  ghost predicate Finds(env: Env, w: Walk, x: Path)
    decreases Rank(x), 1
  {
    var next := Step(DirOf(w.comb), x);
    assert next.Some? ==> Rank(next.value) < Rank(x) by { if next.Some? { StepDown(env.tree, DirOf(w.comb), x); } }
    FindsHere(env, w, next)
  }

  /** The same from the node the walk has come to, if it has not run out. */
  ghost predicate FindsHere(env: Env, w: Walk, cur: Option<Path>)
    decreases if cur.Some? then Rank(cur.value) + 1 else 0, 0
  {
    && cur.Some?
    && if Eligible(env, w, cur.value) && (First(w.comb) || Hit(env, w, cur.value))
       then Hit(env, w, cur.value) else Finds(env, w, cur.value)
  }

  // ---- the uncached walk is the combinator of the standard ----

  /** In a document only elements, and the root, have children. */
  ghost predicate InnerNodesAreElements(t: Node) {
    forall p :: Has(t, p) && p != [] && At(t, p).kids != [] ==> At(t, p).kind == Element
  }

  lemma ParentIsElement(t: Node, x: Path)
    requires InnerNodesAreElements(t) && Has(t, x) && x != []
    ensures |x| > 1 ==> IsElement(t, x[..|x| - 1])
  {
    var p := x[..|x| - 1];
    assert x == p + [x[|x| - 1]];
    HasKid(t, p, x[|x| - 1]);
    assert p != [] ==> At(t, p).kids != [];
  }

  lemma RelatedStep(t: Node, c: Combinator, any: bool, y: Path, x: Path)
    requires InnerNodesAreElements(t) && Has(t, x)
    ensures var next := Step(DirOf(c), x);
            Related(t, c, any, y, x) <==>
              next.Some? &&
              var q := next.value;
              var eligible := IsElement(t, q) || (any && DirOf(c) == ParentNode);
              (eligible && y == q) || (!(eligible && First(c)) && Related(t, c, any, y, q))
  {
    var next := Step(DirOf(c), x);
    if next.Some? {
      var q := next.value;
      StepDown(t, DirOf(c), x);
      if DirOf(c) == ParentNode {
        ParentIsElement(t, x);
        assert |y| < |q| ==> x[..|y|] == q[..|y|];
      } else {
        var n := |x| - 1;
        assert q[..n] == x[..n] && q[n] == x[n] - 1;
        assert EarlierSibling(y, x) <==> y == q || EarlierSibling(y, q) by {
          if EarlierSibling(y, x) && y[n] == q[n] {
            assert y == y[..n] + [y[n]] == q;
          }
        }
        if c == Adjacent { AdjacentStep(t, y, x, q); }
      }
    }
  }

  lemma AdjacentStep(t: Node, y: Path, x: Path, q: Path)
    requires Step(PreviousSibling, x) == Some(q)
    requires EarlierSibling(y, x) <==> y == q || EarlierSibling(y, q)
    ensures Related(t, Adjacent, false, y, x) <==>
              if IsElement(t, q) then y == q else Related(t, Adjacent, false, y, q)
  {
    var n := |x| - 1;
    assert q[..n] == x[..n] && q[n] == x[n] - 1;
    forall z | EarlierSibling(y, z) && EarlierSibling(z, x) ensures z == q || EarlierSibling(z, q) {
      if z[n] == q[n] { assert z == z[..n] + [z[n]] == q; }
    }
    assert forall z :: EarlierSibling(z, q) ==> EarlierSibling(z, x);
    assert EarlierSibling(q, x);
  }

  /** The walk succeeds exactly when some related node is a hit. */
  lemma {:induction false} WalkMeaning(env: Env, w: Walk, x: Path)
    requires InnerNodesAreElements(env.tree) && Has(env.tree, x)
    ensures Finds(env, w, x) <==> exists y :: Related(env.tree, w.comb, w.ToContext?, y, x) && Hit(env, w, y)
    decreases Rank(x)
  {
    var next := Step(DirOf(w.comb), x);
    forall y { RelatedStep(env.tree, w.comb, w.ToContext?, y, x); }
    if next.Some? {
      StepDown(env.tree, DirOf(w.comb), x);
      WalkMeaning(env, w, next.value);
    }
  }

  /** What elementMatcher decides at one node. */
  ghost predicate HeadAccepts(env: Env, h: Head, x: Path) {
    (h.Context? && h.lead.None? && env.InDocumentContext()) || Finds(env, WalkOf(h), x)
  }

  lemma {:induction false} FiltersMeaning(env: Env, lead: Option<Combinator>, tokens: seq<Token>, fs: seq<nat>, x: Path)
    ensures Matches(env, lead, tokens + AsTokens(fs), x) <==>
              (forall i :: 0 <= i < |fs| ==> env.sat(fs[i], x)) && Matches(env, lead, tokens, x)
  {
    if fs == [] {
      assert tokens + AsTokens(fs) == tokens;
    } else {
      var n := |fs| - 1;
      var all := tokens + AsTokens(fs);
      assert all[..|all| - 1] == tokens + AsTokens(fs[..n]);
      FiltersMeaning(env, lead, tokens, fs[..n], x);
    }
  }

  lemma AcceptsMeaning(env: Env, m: Compound, x: Path)
    requires InnerNodesAreElements(env.tree) && Has(env.tree, x)
    ensures Accepts(env, m, x) <==>
              (forall i :: 0 <= i < |m.filters| ==> env.sat(m.filters[i], x)) && HeadAccepts(env, m.head, x)
  {
    FiltersMeaning(env, Lead(m), HeadTokens(m.head), m.filters, x);
    HeadMeaning(env, m, x);
  }

  lemma HeadMeaning(env: Env, m: Compound, x: Path)
    requires InnerNodesAreElements(env.tree) && Has(env.tree, x)
    ensures Matches(env, Lead(m), HeadTokens(m.head), x) <==> HeadAccepts(env, m.head, x)
  {
    WalkMeaning(env, WalkOf(m.head), x);
    match m.head
    case After(c, _, left) =>
      var all := HeadTokens(m.head);
      assert all[|all| - 1] == Comb(c) && all[..|all| - 1] == Tokens(left);
      assert forall y :: Hit(env, WalkOf(m.head), y) <==> Matches(env, Lead(m), all[..|all| - 1], y);
    case Context(_, _) =>
      assert Hit(env, WalkOf(m.head), env.context);
  }

  // ---- the memo ----

  /** The value in a slot: being evaluated, true, or the cachedruns of the element during which it was false. */
  datatype Memo = Pending | Yes | No(stamp: nat)

  /** A node's cache for one direction: whose it is, by run and combinator, and the value. */
  datatype Slot = Slot(run: nat, name: nat, memo: Memo)

  type Slots = map<(Path, Dir), Slot>

  /** Every combinator in m is on record, and those further left have smaller names. */
  ghost predicate Registered(walks: map<nat, Walk>, m: Compound) {
    && m.head.name in walks && walks[m.head.name] == WalkOf(m.head)
    && (m.head.After? ==> m.head.left.head.name < m.head.name && Registered(walks, m.head.left))
  }

  /** A slot of the current run tells the truth about its node. A false stamped with the current element also
      says that nothing further along the walk is a hit, unless that walk is still under way (busy). */
  ghost predicate SlotOk(env: Env, walks: map<nat, Walk>, cachedruns: nat, busy: set<nat>, strict: bool,
                         y: Path, d: Dir, s: Slot) {
    && s.name in walks && DirOf(walks[s.name].comb) == d
    && var w := walks[s.name];
       match s.memo
       case Pending => s.name in busy
       case Yes => Hit(env, w, y)
       case No(stamp) =>
         && !Hit(env, w, y) && stamp <= cachedruns
         && (strict && stamp == cachedruns && s.name !in busy ==> !Finds(env, w, y))
  }

  ghost predicate Sound(env: Env, walks: map<nat, Walk>, slots: Slots, run: nat, cachedruns: nat,
                        busy: set<nat>, strict: bool) {
    forall k :: k in slots && slots[k].run == run ==>
      SlotOk(env, walks, cachedruns, busy, strict, k.0, k.1, slots[k])
  }

  /** During the walk of w, which has reached cur: what its own slots say. */
  ghost predicate OwnOk(env: Env, w: Walk, name: nat, slots: Slots, run: nat, cachedruns: nat, cur: Option<Path>) {
    forall k :: k in slots && slots[k].run == run && slots[k].name == name ==>
      && !slots[k].memo.Pending?
      && (slots[k].memo == No(cachedruns) && Finds(env, w, k.0) ==>
            FindsHere(env, w, cur) && cur.Some? && Rank(k.0) > Rank(cur.value))
  }

  /** Slots at nodes of at least this rank are untouched, and no slot of a busy walk is new. */
  ghost predicate Framed(before: Slots, after: Slots, run: nat, rank: nat, busy: set<nat>) {
    && (forall k :: k in before && Rank(k.0) >= rank ==> k in after && after[k] == before[k])
    && (forall k :: k in after && after[k].run == run && after[k].name in busy ==>
          k in before && before[k] == after[k])
    && (forall k :: k in after && after[k].run != run ==> k in before && before[k] == after[k])
  }

  class Sizzle {
    var dirruns: nat
    var cachedruns: nat
    var done: nat
    var outermostContext: Option<Path>
    var slots: Slots
    /** What each doneName handed out so far stands for. */
    ghost var walks: map<nat, Walk>

    ghost predicate Valid()
      reads this
    {
      && (forall n :: n in walks ==> n < done)
      && (forall k :: k in slots ==> slots[k].run <= dirruns)
    }

    constructor ()
      ensures Valid() && outermostContext == None && walks == map[]
    {
      dirruns, cachedruns, done, outermostContext, slots, walks := 0, 0, 0, None, map[], map[];
    }

    // ---- compiling ----

    /** Each combinator gets a name of its own when it is compiled. */
    method NewName(ghost w: Walk) returns (name: nat)
      requires Valid()
      modifies `done, `walks
      ensures Valid() && name == old(done) && name < done && walks == old(walks)[name := w]
    {
      name := done;
      done := done + 1;
      walks := walks[name := w];
    }

    /** matcherFromTokens */
    method MatcherFromTokens(sel: Selector) returns (m: Compound)
      requires Valid()
      modifies `done, `walks
      ensures Valid() && Registered(walks, m)
      ensures Lead(m) == sel.lead && Tokens(m) == sel.tokens
      ensures forall n :: n in old(walks) ==> n in walks && walks[n] == old(walks)[n]
      ensures done >= old(done)
    {
      var implicitRelative := if sel.lead.Some? then sel.lead.value else Descendant;
      var name := NewName(ToContext(implicitRelative));
      done := done + 1; // matchAnyContext, for a list of contexts
      m := Compound(Context(sel.lead, name), []);
      var i := 0;
      while i < |sel.tokens|
        invariant 0 <= i <= |sel.tokens|
        invariant Valid() && Registered(walks, m) && done > old(done)
        invariant Lead(m) == sel.lead && Tokens(m) == sel.tokens[..i]
        invariant forall n :: n in old(walks) ==> n in walks && walks[n] == old(walks)[n]
      {
        assert sel.tokens[..i + 1] == sel.tokens[..i] + [sel.tokens[i]];
        match sel.tokens[i] {
          case Filter(f) =>
            assert AsTokens(m.filters + [f]) == AsTokens(m.filters) + [Filter(f)];
            m := m.(filters := m.filters + [f]);
          case Comb(c) =>
            ghost var was := walks;
            name := NewName(ToLeft(c, m));
            RegisteredExtend(was, walks, m);
            m := Compound(After(c, name, m), []);
        }
        i := i + 1;
      }
      assert sel.tokens[..i] == sel.tokens;
    }

    /** compile: one matcher for each selector of the group, last selector first. */
    method Compile(group: seq<Selector>) returns (matchers: seq<Compound>)
      requires Valid()
      modifies `done, `walks
      ensures Valid() && |matchers| == |group|
      ensures forall i :: 0 <= i < |group| ==> Registered(walks, matchers[i])
      ensures forall i :: 0 <= i < |group| ==> AsSelector(matchers[i]) == group[|group| - 1 - i]
    {
      matchers := [];
      var i := |group|;
      while i > 0
        invariant 0 <= i <= |group| && |matchers| == |group| - i
        invariant Valid()
        invariant forall j :: 0 <= j < |matchers| ==> Registered(walks, matchers[j])
        invariant forall j :: 0 <= j < |matchers| ==> AsSelector(matchers[j]) == group[|group| - 1 - j]
      {
        i := i - 1;
        ghost var was := walks;
        var m := MatcherFromTokens(group[i]);
        forall j | 0 <= j < |matchers| ensures Registered(walks, matchers[j]) {
          RegisteredExtend(was, walks, matchers[j]);
        }
        matchers := matchers + [m];
      }
    }

    // ---- matching ----

    /** One element against one compiled selector (elementMatcher). */
    method Match(env: Env, m: Compound, x: Path, ghost busy: set<nat>) returns (r: bool)
      requires Ready(env, x) && Registered(walks, m)
      requires Sound(env, walks, slots, dirruns, cachedruns, busy, true)
      requires forall b :: b in busy ==> m.head.name < b
      modifies `slots
      ensures r <==> Accepts(env, m, x)
      ensures Sound(env, walks, slots, dirruns, cachedruns, busy, !r)
      ensures Framed(old(slots), slots, dirruns, Rank(x), busy)
      decreases m, 1
    {
      AcceptsMeaning(env, m, x);
      var i := |m.filters|;
      while i > 0
        invariant 0 <= i <= |m.filters|
        invariant slots == old(slots)
        invariant forall j :: i <= j < |m.filters| ==> env.sat(m.filters[j], x)
      {
        i := i - 1;
        if !env.sat(m.filters[i], x) { return false; }
      }
      if m.head.Context? && m.head.lead.None? && Some(env.context) != outermostContext {
        return true;
      }
      r := RunWalk(env, m.head, x, busy);
    }

    /** The function addCombinator returns. */
    method RunWalk(env: Env, h: Head, x: Path, ghost busy: set<nat>) returns (r: bool)
      requires Ready(env, x) && Registered(walks, Compound(h, []))
      requires Sound(env, walks, slots, dirruns, cachedruns, busy, true)
      requires forall b :: b in busy ==> h.name < b
      modifies `slots
      ensures r <==> Finds(env, WalkOf(h), x)
      ensures Sound(env, walks, slots, dirruns, cachedruns, busy, !r)
      ensures Framed(old(slots), slots, dirruns, Rank(x), busy)
      decreases h, 3
    {
      if First(WalkOf(h).comb) {
        r := RunToFirst(env, h, x, busy);
      } else {
        r := RunThroughAll(env, h, x, busy);
      }
    }

    /** combinator.first: check against the closest ancestor or preceding element. */
    method RunToFirst(env: Env, h: Head, x: Path, ghost busy: set<nat>) returns (r: bool)
      requires Ready(env, x) && Registered(walks, Compound(h, [])) && First(WalkOf(h).comb)
      requires Sound(env, walks, slots, dirruns, cachedruns, busy, true)
      requires forall b :: b in busy ==> h.name < b
      modifies `slots
      ensures r <==> Finds(env, WalkOf(h), x)
      ensures Sound(env, walks, slots, dirruns, cachedruns, busy, !r)
      ensures Framed(old(slots), slots, dirruns, Rank(x), busy)
      decreases h, 2
    {
      var w := WalkOf(h);
      var d := DirOf(w.comb);
      var cur := Step(d, x);
      if cur.Some? { StepDown(env.tree, d, x); }
      while cur.Some?
        invariant cur.Some? ==> Has(env.tree, cur.value) && Rank(cur.value) < Rank(x)
        invariant Finds(env, w, x) <==> FindsHere(env, w, cur)
        invariant slots == old(slots)
        decreases if cur.Some? then Rank(cur.value) + 1 else 0
      {
        if Eligible(env, w, cur.value) {
          r := IsHit(env, h, cur.value, busy);
          return;
        }
        var next := Step(d, cur.value);
        if next.Some? { StepDown(env.tree, d, cur.value); }
        cur := next;
      }
      r := false;
    }

    /** Check against all ancestor or preceding elements, remembering each outcome on the node. */
    method RunThroughAll(env: Env, h: Head, x: Path, ghost busy: set<nat>) returns (r: bool)
      requires Ready(env, x) && Registered(walks, Compound(h, [])) && !First(WalkOf(h).comb)
      requires Sound(env, walks, slots, dirruns, cachedruns, busy, true)
      requires forall b :: b in busy ==> h.name < b
      modifies `slots
      ensures r <==> Finds(env, WalkOf(h), x)
      ensures Sound(env, walks, slots, dirruns, cachedruns, busy, !r)
      ensures Framed(old(slots), slots, dirruns, Rank(x), busy)
      decreases h, 2
    {
      var w := WalkOf(h);
      var d := DirOf(w.comb);
      var cur := Step(d, x);
      if cur.Some? { StepDown(env.tree, d, x); }
      ghost var busy' := busy + {h.name};
      WalkBegins(env, walks, slots, dirruns, cachedruns, busy, h, cur);
      while cur.Some?
        invariant cur.Some? ==> Has(env.tree, cur.value) && Rank(cur.value) < Rank(x)
        invariant Finds(env, w, x) <==> FindsHere(env, w, cur)
        invariant Sound(env, walks, slots, dirruns, cachedruns, busy', true)
        invariant OwnOk(env, w, h.name, slots, dirruns, cachedruns, cur)
        invariant Framed(old(slots), slots, dirruns, Rank(x), busy)
        decreases if cur.Some? then Rank(cur.value) + 1 else 0
      {
        var y := cur.value;
        var next := Step(d, y);
        if next.Some? { StepDown(env.tree, d, y); }
        ghost var before := slots;
        if Eligible(env, w, y) {
          if (y, d) in slots && slots[(y, d)].run == dirruns && slots[(y, d)].name == h.name {
            var memo := slots[(y, d)].memo;
            assert SlotOk(env, walks, cachedruns, busy', true, y, d, slots[(y, d)]);
            if memo == Yes || memo == No(cachedruns) {
              WalkAnswered(env, walks, slots, dirruns, cachedruns, busy, h, y);
              return memo == Yes;
            }
          } else {
            var hit := Evaluate(env, h, y, busy);
            FramedTrans(old(slots), before, slots, dirruns, Rank(y) + 1, Rank(x), busy);
            if hit { return true; }
          }
        }
        OwnAdvance(env, w, h.name, before, slots, dirruns, cachedruns, y);
        cur := next;
      }
      WalkEnds(env, walks, slots, dirruns, cachedruns, busy, h);
      r := false;
    }

    /** Evaluate the matcher at a node and record the outcome; the slot is entered before the matcher is called. */
    method Evaluate(env: Env, h: Head, y: Path, ghost busy: set<nat>) returns (hit: bool)
      requires Ready(env, y) && Registered(walks, Compound(h, [])) && !First(WalkOf(h).comb)
      requires Eligible(env, WalkOf(h), y)
      requires Sound(env, walks, slots, dirruns, cachedruns, busy + {h.name}, true)
      requires OwnOk(env, WalkOf(h), h.name, slots, dirruns, cachedruns, Some(y))
      requires forall b :: b in busy ==> h.name < b
      modifies `slots
      ensures hit <==> Hit(env, WalkOf(h), y)
      ensures hit ==> Sound(env, walks, slots, dirruns, cachedruns, busy, false)
      ensures !hit ==> Sound(env, walks, slots, dirruns, cachedruns, busy + {h.name}, true)
      ensures !hit ==> OnlyAt(old(slots), slots, dirruns, h.name, y)
      ensures Framed(old(slots), slots, dirruns, Rank(y) + 1, busy)
      decreases h, 1
    {
      var d := DirOf(WalkOf(h).comb);
      ghost var before := slots;
      slots := slots[(y, d) := Slot(dirruns, h.name, Pending)];
      MemoPending(env, walks, before, dirruns, cachedruns, busy + {h.name}, h, y);
      ghost var entered := slots;
      hit := IsHit(env, h, y, busy + {h.name});
      assert slots[(y, d)] == Slot(dirruns, h.name, Pending);
      ghost var after := slots;
      slots := slots[(y, d) := Slot(dirruns, h.name, if hit then Yes else No(cachedruns))];
      MemoFramed(before, entered, after, slots, dirruns, busy, h.name, y, d);
      MemoWritten(env, walks, before, after, dirruns, cachedruns, busy, h, y, hit);
    }

    /** The matcher handed to addCombinator: the context test, or the part of the selector to the left. */
    method IsHit(env: Env, h: Head, y: Path, ghost busy: set<nat>) returns (r: bool)
      requires Ready(env, y) && Registered(walks, Compound(h, []))
      requires Sound(env, walks, slots, dirruns, cachedruns, busy, true)
      requires forall b :: b in busy ==> h.name <= b
      modifies `slots
      ensures r <==> Hit(env, WalkOf(h), y)
      ensures Sound(env, walks, slots, dirruns, cachedruns, busy, !r)
      ensures Framed(old(slots), slots, dirruns, Rank(y), busy)
      decreases h, 0
    {
      match h
      case Context(_, _) => r := y == env.context;
      case After(_, _, left) => r := Match(env, left, y, busy);
    }

    /** The inner loop of superMatcher: try the selectors of the group on one element until one accepts it. */
    method MatchSome(env: Env, matchers: seq<Compound>, elem: Path) returns (matched: bool)
      requires Valid() && Ready(env, elem)
      requires forall i :: 0 <= i < |matchers| ==> Registered(walks, matchers[i])
      requires Sound(env, walks, slots, dirruns, cachedruns, {}, true)
      modifies `slots
      ensures Valid() && matched == MatchesAny(env, AsSelectors(matchers), elem)
      ensures Sound(env, walks, slots, dirruns, cachedruns, {}, !matched)
    {
      ghost var sels := AsSelectors(matchers);
      var j := 0;
      while j < |matchers|
        invariant 0 <= j <= |matchers|
        invariant Valid() && Sound(env, walks, slots, dirruns, cachedruns, {}, true)
        invariant forall l :: 0 <= l < j ==> !Accepts(env, matchers[l], elem)
        modifies `slots
      {
        var before := slots;
        matched := Match(env, matchers[j], elem, {});
        FramedRuns(before, slots, dirruns, Rank(elem));
        if matched {
          assert Matches(env, sels[j].lead, sels[j].tokens, elem);
          return;
        }
        j := j + 1;
      }
      matched := false;
    }

    /** One turn of the outer loop, with the counter raised at its end. */
    method OneElement(env: Env, matchers: seq<Compound>, elem: Path, runs: nat) returns (matched: bool, runs': nat)
      requires Valid() && Ready(env, elem) && cachedruns == runs
      requires forall i :: 0 <= i < |matchers| ==> Registered(walks, matchers[i])
      requires Sound(env, walks, slots, dirruns, cachedruns, {}, true)
      modifies `slots, `cachedruns
      ensures Valid() && matched == MatchesAny(env, AsSelectors(matchers), elem)
      ensures cachedruns == runs' && Sound(env, walks, slots, dirruns, cachedruns, {}, true)
    {
      matched := MatchSome(env, matchers, elem);
      NextElement(env, walks, slots, dirruns, cachedruns, !matched);
      runs' := runs + 1;
      cachedruns := runs';
    }

    /** An outermost superMatcher run over elems. runs is the matcherCachedRuns kept by the compiled function. */
    method SuperMatcher(env: Env, matchers: seq<Compound>, elems: seq<Path>, runs: nat)
      returns (results: seq<Path>, runs': nat)
      requires Valid() && outermostContext == None && InnerNodesAreElements(env.tree)
      requires forall i :: 0 <= i < |matchers| ==> Registered(walks, matchers[i])
      requires forall i :: 0 <= i < |elems| ==> Has(env.tree, elems[i])
      modifies `dirruns, `cachedruns, `outermostContext, `slots
      ensures Valid() && outermostContext == None
      ensures results == Selected(env, AsSelectors(matchers), elems)
    {
      dirruns := dirruns + 1;
      outermostContext := if env.InDocumentContext() then None else Some(env.context);
      runs' := runs;
      cachedruns := runs';
      results := [];
      ghost var sels := AsSelectors(matchers);
      var i := 0;
      while i < |elems|
        invariant 0 <= i <= |elems|
        invariant outermostContext == (if env.InDocumentContext() then None else Some(env.context))
        invariant cachedruns == runs'
        invariant Sound(env, walks, slots, dirruns, cachedruns, {}, true)
        invariant Valid() && results == Selected(env, sels, elems[..i])
        modifies `slots, `cachedruns
      {
        var elem := elems[i];
        SelectedNext(env, sels, elems, i);
        var matched;
        matched, runs' := OneElement(env, matchers, elem, runs');
        if matched {
          results := results + [elem];
        }
        i := i + 1;
      }
      assert elems[..i] == elems;
      outermostContext := None;
    }

    ghost predicate Ready(env: Env, x: Path)
      reads this
    {
      && Has(env.tree, x) && InnerNodesAreElements(env.tree)
      && outermostContext == (if env.InDocumentContext() then None else Some(env.context))
    }
  }

  function AsSelector(m: Compound): Selector {
    Selector(Lead(m), Tokens(m))
  }

  function AsSelectors(ms: seq<Compound>): (r: seq<Selector>)
    ensures |r| == |ms| && forall i :: 0 <= i < |ms| ==> r[i] == AsSelector(ms[i])
  {
    seq(|ms|, i requires 0 <= i < |ms| => AsSelector(ms[i]))
  }

  lemma FramedRuns(before: Slots, after: Slots, run: nat, rank: nat)
    requires Framed(before, after, run, rank, {}) && forall k :: k in before ==> before[k].run <= run
    ensures forall k :: k in after ==> after[k].run <= run
  {
  }

  lemma SelectedNext(env: Env, sels: seq<Selector>, elems: seq<Path>, i: nat)
    requires i < |elems|
    ensures Selected(env, sels, elems[..i + 1])
         == if MatchesAny(env, sels, elems[i]) then Selected(env, sels, elems[..i]) + [elems[i]]
            else Selected(env, sels, elems[..i])
  {
    assert elems[..i + 1][..i] == elems[..i];
    assert Selected(env, sels, elems[..i]) + [] == Selected(env, sels, elems[..i]);
  }

  /** Moving on to the next element turns every false into one that only speaks of its own node. */
  lemma NextElement(env: Env, walks: map<nat, Walk>, slots: Slots, run: nat, cachedruns: nat, strict: bool)
    requires Sound(env, walks, slots, run, cachedruns, {}, strict)
    ensures Sound(env, walks, slots, run, cachedruns + 1, {}, true)
  {
    forall k | k in slots && slots[k].run == run
      ensures SlotOk(env, walks, cachedruns + 1, {}, true, k.0, k.1, slots[k])
    {
      assert SlotOk(env, walks, cachedruns, {}, strict, k.0, k.1, slots[k]);
    }
  }

  lemma {:induction false} RegisteredExtend(was: map<nat, Walk>, now: map<nat, Walk>, m: Compound)
    requires Registered(was, m) && forall n :: n in was ==> n in now && now[n] == was[n]
    ensures Registered(now, m)
  {
    if m.head.After? { RegisteredExtend(was, now, m.head.left); }
  }

  // ---- the steps of a memoised walk ----

  lemma WalkBegins(env: Env, walks: map<nat, Walk>, slots: Slots, run: nat, stamp: nat, busy: set<nat>, h: Head,
                   cur: Option<Path>)
    requires h.name in walks && walks[h.name] == WalkOf(h) && h.name !in busy
    requires Sound(env, walks, slots, run, stamp, busy, true)
    ensures Sound(env, walks, slots, run, stamp, busy + {h.name}, true)
    ensures OwnOk(env, WalkOf(h), h.name, slots, run, stamp, cur)
  {
    forall k | k in slots && slots[k].run == run
      ensures SlotOk(env, walks, stamp, busy + {h.name}, true, k.0, k.1, slots[k])
      ensures slots[k].name == h.name ==>
                !slots[k].memo.Pending? && (slots[k].memo == No(stamp) ==> !Finds(env, WalkOf(h), k.0))
    {
      assert SlotOk(env, walks, stamp, busy, true, k.0, k.1, slots[k]);
    }
  }

  /** The walk has run out: all its falses are final. */
  lemma WalkEnds(env: Env, walks: map<nat, Walk>, slots: Slots, run: nat, stamp: nat, busy: set<nat>, h: Head)
    requires h.name in walks && walks[h.name] == WalkOf(h)
    requires Sound(env, walks, slots, run, stamp, busy + {h.name}, true)
    requires OwnOk(env, WalkOf(h), h.name, slots, run, stamp, None)
    ensures Sound(env, walks, slots, run, stamp, busy, true)
  {
    forall k | k in slots && slots[k].run == run
      ensures SlotOk(env, walks, stamp, busy, true, k.0, k.1, slots[k])
    {
      assert SlotOk(env, walks, stamp, busy + {h.name}, true, k.0, k.1, slots[k]);
    }
  }

  /** A slot of this walk answers at once: true, or false during the same element. */
  lemma WalkAnswered(env: Env, walks: map<nat, Walk>, slots: Slots, run: nat, stamp: nat, busy: set<nat>,
                     h: Head, y: Path)
    requires h.name in walks && walks[h.name] == WalkOf(h) && !First(WalkOf(h).comb)
    requires Sound(env, walks, slots, run, stamp, busy + {h.name}, true)
    requires OwnOk(env, WalkOf(h), h.name, slots, run, stamp, Some(y))
    requires Eligible(env, WalkOf(h), y)
    requires var k := (y, DirOf(WalkOf(h).comb));
             k in slots && slots[k].run == run && slots[k].name == h.name && slots[k].memo in {Yes, No(stamp)}
    ensures FindsHere(env, WalkOf(h), Some(y)) <==> slots[(y, DirOf(WalkOf(h).comb))].memo == Yes
    ensures Sound(env, walks, slots, run, stamp, busy, slots[(y, DirOf(WalkOf(h).comb))].memo != Yes)
  {
    var k0 := (y, DirOf(WalkOf(h).comb));
    assert SlotOk(env, walks, stamp, busy + {h.name}, true, k0.0, k0.1, slots[k0]);
    assert FindsHere(env, WalkOf(h), Some(y)) <==> slots[k0].memo == Yes;
    forall k | k in slots && slots[k].run == run
      ensures SlotOk(env, walks, stamp, busy, slots[k0].memo != Yes, k.0, k.1, slots[k])
    {
      assert SlotOk(env, walks, stamp, busy + {h.name}, true, k.0, k.1, slots[k]);
    }
  }

  lemma MemoPending(env: Env, walks: map<nat, Walk>, slots: Slots, run: nat, stamp: nat, busy: set<nat>,
                     h: Head, y: Path)
    requires h.name in walks && walks[h.name] == WalkOf(h) && h.name in busy
    requires Sound(env, walks, slots, run, stamp, busy, true)
    ensures Sound(env, walks, slots[(y, DirOf(WalkOf(h).comb)) := Slot(run, h.name, Pending)], run, stamp, busy, true)
  {
    var k0 := (y, DirOf(WalkOf(h).comb));
    var slots' := slots[k0 := Slot(run, h.name, Pending)];
    forall k | k in slots' && slots'[k].run == run
      ensures SlotOk(env, walks, stamp, busy, true, k.0, k.1, slots'[k])
    {
      assert k != k0 ==> SlotOk(env, walks, stamp, busy, true, k.0, k.1, slots[k]);
    }
  }

  /** Apart from one written at y, the slots of this walk are old ones. */
  ghost predicate OnlyAt(before: Slots, after: Slots, run: nat, name: nat, y: Path) {
    forall k :: k in after && after[k].run == run && after[k].name == name ==>
      (k.0 == y && !after[k].memo.Pending?) || (k in before && before[k] == after[k])
  }

  lemma FramedTrans(a: Slots, b: Slots, c: Slots, run: nat, low: nat, high: nat, busy: set<nat>)
    requires Framed(a, b, run, high, busy) && Framed(b, c, run, low, busy) && low <= high
    ensures Framed(a, c, run, high, busy)
  {
  }

  lemma MemoFramed(before: Slots, entered: Slots, after: Slots, written: Slots, run: nat,
                   busy: set<nat>, name: nat, y: Path, d: Dir)
    requires name !in busy
    requires entered == before[(y, d) := Slot(run, name, Pending)]
    requires Framed(entered, after, run, Rank(y), busy + {name})
    requires (y, d) in written && written == after[(y, d) := written[(y, d)]]
    requires written[(y, d)].run == run && written[(y, d)].name == name && !written[(y, d)].memo.Pending?
    ensures Framed(before, written, run, Rank(y) + 1, busy)
    ensures OnlyAt(before, written, run, name, y)
  {
    SameButOne(before, entered, (y, d));
    SameButOne(after, written, (y, d));
  }

  lemma SameButOne(a: Slots, b: Slots, key: (Path, Dir))
    requires key in b && b == a[key := b[key]]
    ensures forall k :: k != key ==> (k in a <==> k in b) && (k in a ==> a[k] == b[k])
  {
  }

  /** Writing the outcome. If it is false the walk goes on; if it is true the whole element is decided. */
  lemma MemoWritten(env: Env, walks: map<nat, Walk>, before: Slots, after: Slots, run: nat, stamp: nat, busy: set<nat>,
                    h: Head, y: Path, hit: bool)
    requires h.name in walks && walks[h.name] == WalkOf(h) && !First(WalkOf(h).comb)
    requires Eligible(env, WalkOf(h), y)
    requires OwnOk(env, WalkOf(h), h.name, before, run, stamp, Some(y))
    requires Sound(env, walks, after, run, stamp, busy + {h.name}, !hit)
    requires Hit(env, WalkOf(h), y) <==> hit
    requires OnlyAt(before, after[(y, DirOf(WalkOf(h).comb)) := Slot(run, h.name, if hit then Yes else No(stamp))],
                    run, h.name, y)
    ensures var k0 := (y, DirOf(WalkOf(h).comb));
            var written := after[k0 := Slot(run, h.name, if hit then Yes else No(stamp))];
            && (hit ==> Sound(env, walks, written, run, stamp, busy, false))
            && (!hit ==> Sound(env, walks, written, run, stamp, busy + {h.name}, true))
  {
    var k0 := (y, DirOf(WalkOf(h).comb));
    var written := after[k0 := Slot(run, h.name, if hit then Yes else No(stamp))];
    forall k | k in written && written[k].run == run
      ensures hit ==> SlotOk(env, walks, stamp, busy, false, k.0, k.1, written[k])
      ensures !hit ==> SlotOk(env, walks, stamp, busy + {h.name}, true, k.0, k.1, written[k])
    {
      if k != k0 {
        assert SlotOk(env, walks, stamp, busy + {h.name}, !hit, k.0, k.1, after[k]);
      }
    }
  }

  /** Past a node that is no hit, the walk's own falses still point ahead. */
  lemma OwnAdvance(env: Env, w: Walk, name: nat, before: Slots, slots: Slots, run: nat, stamp: nat, y: Path)
    requires OwnOk(env, w, name, before, run, stamp, Some(y))
    requires !First(w.comb) && !(Eligible(env, w, y) && Hit(env, w, y))
    requires OnlyAt(before, slots, run, name, y)
    ensures OwnOk(env, w, name, slots, run, stamp, Step(DirOf(w.comb), y))
    ensures FindsHere(env, w, Some(y)) <==> FindsHere(env, w, Step(DirOf(w.comb), y))
  {
    var next := Step(DirOf(w.comb), y);
    if next.Some? { StepDown(env.tree, DirOf(w.comb), y); }
    assert FindsHere(env, w, Some(y)) <==> FindsHere(env, w, next);
  }
}
