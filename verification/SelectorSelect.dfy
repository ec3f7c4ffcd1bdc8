/** Sizzle's select: an id at the front replaces the context, a seed set is fetched from the rightmost compound,
    and only the seed is matched. The outcome is the one of testing every element of the tree. */
module SelectorSelect {
  import opened Dom
  import opened Wrappers
  import opened Selectors
  import opened SelectorMatcher

  /** All elements of the tree that lie below c, in document order. */
  function ElementsBelow(t: Node, c: Path): seq<Path> {
    Keep(t, c, Preorder(t))
  }

  function Keep(t: Node, c: Path, ps: seq<Path>): seq<Path> {
    if ps == [] then []
    else (if ProperPrefix(c, ps[0]) && IsElement(t, ps[0]) then [ps[0]] else []) + Keep(t, c, ps[1..])
  }

  lemma {:induction false} KeepMembers(t: Node, c: Path, ps: seq<Path>, p: Path)
    ensures p in Keep(t, c, ps) <==> p in ps && ProperPrefix(c, p) && IsElement(t, p)
  {
    if ps != [] { KeepMembers(t, c, ps[1..], p); }
  }

  lemma {:induction false} KeepIncreasing(t: Node, c: Path, ps: seq<Path>)
    requires Increasing(ps)
    ensures Increasing(Keep(t, c, ps))
  {
    if ps != [] {
      KeepIncreasing(t, c, ps[1..]);
      var rest := Keep(t, c, ps[1..]);
      forall j | 0 <= j < |rest| ensures Before(ps[0], rest[j]) {
        KeepMembers(t, c, ps[1..], rest[j]);
        assert rest[j] in rest;
      }
    }
  }

  lemma ElementsBelowMeaning(t: Node, c: Path)
    ensures Increasing(ElementsBelow(t, c))
    ensures forall p :: p in ElementsBelow(t, c) <==> ProperPrefix(c, p) && IsElement(t, p)
  {
    PreorderIncreasing(t);
    KeepIncreasing(t, c, Preorder(t));
    forall p ensures p in ElementsBelow(t, c) <==> ProperPrefix(c, p) && IsElement(t, p) {
      KeepMembers(t, c, Preorder(t), p);
      PreorderComplete(t, p);
    }
  }

  /** Every element of the tree, in document order. */
  function Elements(t: Node): seq<Path> {
    (if t.kind == Element then [[]] else []) + ElementsBelow(t, [])
  }

  lemma ElementsMeaning(t: Node)
    ensures Increasing(Elements(t))
    ensures forall p :: p in Elements(t) <==> IsElement(t, p)
  {
    ElementsBelowMeaning(t, []);
    var below := ElementsBelow(t, []);
    forall j | 0 <= j < |below| ensures Before([], below[j]) {
      assert below[j] in below;
    }
  }

  // ---- Selected as a set with an order ----

  lemma {:induction false} SelectedMembers(env: Env, sels: seq<Selector>, elems: seq<Path>, p: Path)
    ensures p in Selected(env, sels, elems) <==> p in elems && MatchesAny(env, sels, p)
  {
    if elems != [] {
      var init := elems[..|elems| - 1];
      assert elems == init + [elems[|elems| - 1]];
      SelectedMembers(env, sels, init, p);
    }
  }

  lemma {:induction false} SelectedIncreasing(env: Env, sels: seq<Selector>, elems: seq<Path>)
    requires Increasing(elems)
    ensures Increasing(Selected(env, sels, elems))
  {
    if elems != [] {
      var init, last := elems[..|elems| - 1], elems[|elems| - 1];
      SelectedIncreasing(env, sels, init);
      var s := Selected(env, sels, init);
      forall j | 0 <= j < |s| ensures Before(s[j], last) {
        SelectedMembers(env, sels, init, s[j]);
        assert s[j] in s;
      }
    }
  }

  /** Two searches that select the same nodes give the same list. */
  lemma SelectedSame(env: Env, sels: seq<Selector>, elems: seq<Path>,
                     env': Env, sels': seq<Selector>, elems': seq<Path>)
    requires Increasing(elems) && Increasing(elems')
    requires forall p :: (p in elems && MatchesAny(env, sels, p)) <==> (p in elems' && MatchesAny(env', sels', p))
    ensures Selected(env, sels, elems) == Selected(env', sels', elems')
  {
    SelectedIncreasing(env, sels, elems);
    SelectedIncreasing(env', sels', elems');
    forall p ensures p in Selected(env, sels, elems) <==> p in Selected(env', sels', elems') {
      SelectedMembers(env, sels, elems, p);
      SelectedMembers(env', sels', elems', p);
    }
    IncreasingUnique(Selected(env, sels, elems), Selected(env', sels', elems'));
  }

  // ---- why each rewriting is harmless ----

  /** A filter of the rightmost compound can be tested first and dropped. */
  lemma {:induction false} DropFilter(env: Env, lead: Option<Combinator>, tokens: seq<Token>, i: nat, x: Path)
    requires i < |tokens| && forall j :: i <= j < |tokens| ==> tokens[j].Filter?
    ensures Matches(env, lead, tokens, x) <==>
              env.sat(tokens[i].f, x) && Matches(env, lead, tokens[..i] + tokens[i + 1..], x)
    decreases |tokens|
  {
    var n := |tokens| - 1;
    var rest := tokens[..i] + tokens[i + 1..];
    if i == n {
      assert rest == tokens[..n];
    } else {
      DropFilter(env, lead, tokens[..n], i, x);
      assert rest[..|rest| - 1] == tokens[..n][..i] + tokens[..n][i + 1..];
    }
  }

  /** Whatever is selected lies below every node that all reachable nodes lie below. */
  lemma {:induction false} SelectedBelow(env: Env, lead: Option<Combinator>, tokens: seq<Token>, base: Path, x: Path)
    requires forall z :: Reachable(env, lead, z) ==> ProperPrefix(base, z)
    ensures Matches(env, lead, tokens, x) ==> ProperPrefix(base, x)
    decreases |tokens|
  {
    if tokens != [] && Matches(env, lead, tokens, x) {
      var n := |tokens| - 1;
      match tokens[n]
      case Filter(f) => SelectedBelow(env, lead, tokens[..n], base, x);
      case Comb(c) =>
        var y :| Related(env.tree, c, false, y, x) && Matches(env, lead, tokens[..n], y);
        SelectedBelow(env, lead, tokens[..n], base, y);
        if c == Sibling || c == Adjacent {
          assert y[..|y| - 1][..|base|] == y[..|base|];
          assert x[..|x| - 1][..|base|] == x[..|base|];
        } else {
          assert x[..|y|][..|base|] == x[..|base|];
          assert x[..|x| - 1][..|base|] == x[..|base|];
        }
    }
  }

  predicate SiblingLead(sel: Selector) {
    sel.lead.Some? && (sel.lead.value == Sibling || sel.lead.value == Adjacent)
  }

  /** The node whose descendants are searched: context, or its parent for a selector with + or ~. */
  function SearchRoot(env: Env, expand: bool): Path {
    if expand && env.context != [] then env.context[..|env.context| - 1] else env.context
  }

  lemma SearchRootCovers(env: Env, sel: Selector, expand: bool, x: Path)
    requires SiblingLead(sel) ==> expand
    requires env.rootIsDocument ==> At(env.tree, []).kind == Document
    ensures IsElement(env.tree, x) && Matches(env, sel.lead, sel.tokens, x) ==> ProperPrefix(SearchRoot(env, expand), x)
  {
    var base := SearchRoot(env, expand);
    if env.InDocumentContext() && sel.lead.None? {
      assert base == [] && (x == [] || ProperPrefix(base, x));
    } else {
      forall z | Reachable(env, sel.lead, z) ensures ProperPrefix(base, z) {
        var c := env.context;
        if SiblingLead(sel) {
          assert EarlierSibling(c, z);
        } else {
          assert ProperPrefix(c, z);
          if base != c { assert z[..|c|][..|base|] == z[..|base|]; }
        }
      }
      SelectedBelow(env, sel.lead, sel.tokens, base, x);
    }
  }

  /** A selector that starts with the id of e and a combinator selects what the rest selects from e. */
  lemma {:induction false} IdBecomesContext(env: Env, f: nat, c: Combinator, rest: seq<Token>, e: Path, x: Path)
    requires env.InDocumentContext()
    requires IsElement(env.tree, e) && forall y :: IsElement(env.tree, y) && env.sat(f, y) <==> y == e
    ensures Matches(env, None, [Filter(f), Comb(c)] + rest, x) <==> Matches(env.(context := e), Some(c), rest, x)
    decreases |rest|
  {
    var tokens := [Filter(f), Comb(c)] + rest;
    if rest == [] {
      assert tokens[..1] == [Filter(f)] && [Filter(f)][..0] == [];
      forall y ensures Matches(env, None, [Filter(f)], y) <==> env.sat(f, y) {
        assert [Filter(f)][..0] == [];
      }
      assert Related(env.tree, c, true, e, x) <==> Related(env.tree, c, false, e, x);
    } else {
      var n := |rest| - 1;
      assert tokens[..n + 2] == [Filter(f), Comb(c)] + rest[..n];
      forall y { IdBecomesContext(env, f, c, rest[..n], e, y); }
    }
  }

  /** No element has the id: nothing is selected. */
  lemma {:induction false} IdMissing(env: Env, f: nat, c: Combinator, rest: seq<Token>, x: Path)
    requires forall y :: IsElement(env.tree, y) ==> !env.sat(f, y)
    ensures !Matches(env, None, [Filter(f), Comb(c)] + rest, x)
    decreases |rest|
  {
    var tokens := [Filter(f), Comb(c)] + rest;
    if rest == [] {
      assert tokens[..1] == [Filter(f)];
    } else {
      var n := |rest| - 1;
      assert tokens[..n + 2] == [Filter(f), Comb(c)] + rest[..n];
      forall y { IdMissing(env, f, c, rest[..n], y); }
    }
  }

  // ---- find ----

  type Finder = (nat, Path) -> Option<seq<Path>>

  /** Whenever a filter can be looked up below a node, the answer is every element there that it accepts. */
  ghost predicate FindAgrees(env: Env, find: Finder) {
    forall f, c :: find(f, c).Some? ==>
      && Increasing(find(f, c).value)
      && forall p :: p in find(f, c).value <==> ProperPrefix(c, p) && IsElement(env.tree, p) && env.sat(f, p)
  }

  /** An id can be looked up in the document and is carried by one element at most. */
  ghost predicate IdsUnique(env: Env, isId: nat -> bool, find: Finder) {
    && (forall f :: isId(f) && env.rootIsDocument ==> find(f, []).Some?)
    && (forall f, p, q | isId(f) && IsElement(env.tree, p) && IsElement(env.tree, q) && env.sat(f, p) && env.sat(f, q)
          :: p == q)
  }

  predicate HasSiblingCombinator(sel: Selector) {
    SiblingLead(sel) || Comb(Sibling) in sel.tokens || Comb(Adjacent) in sel.tokens
  }

  lemma CompiledOrder(env: Env, group: seq<Selector>, compiled: seq<Selector>, x: Path)
    requires |compiled| == |group| && forall i :: 0 <= i < |group| ==> compiled[i] == group[|group| - 1 - i]
    ensures MatchesAny(env, compiled, x) <==> MatchesAny(env, group, x)
  {
    if MatchesAny(env, group, x) {
      var i :| 0 <= i < |group| && Matches(env, group[i].lead, group[i].tokens, x);
      assert compiled[|group| - 1 - i] == group[i];
    }
  }

  lemma CoveredBy(env: Env, group: seq<Selector>, expand: bool)
    requires env.rootIsDocument ==> At(env.tree, []).kind == Document
    requires !expand ==> forall i :: 0 <= i < |group| ==> !HasSiblingCombinator(group[i])
    ensures var elems := ElementsBelow(env.tree, SearchRoot(env, expand));
            Increasing(elems) && (forall i :: 0 <= i < |elems| ==> Has(env.tree, elems[i]))
            && Selected(env, group, elems) == Selected(env, group, Elements(env.tree))
  {
    var elems := ElementsBelow(env.tree, SearchRoot(env, expand));
    ElementsBelowMeaning(env.tree, SearchRoot(env, expand));
    ElementsMeaning(env.tree);
    forall i | 0 <= i < |elems| ensures Has(env.tree, elems[i]) { assert elems[i] in elems; }
    forall p | IsElement(env.tree, p) && MatchesAny(env, group, p) ensures p in elems {
      var i :| 0 <= i < |group| && Matches(env, group[i].lead, group[i].tokens, p);
      SearchRootCovers(env, group[i], expand, p);
    }
    SelectedSame(env, group, elems, env, group, Elements(env.tree));
  }

  lemma {:induction false} SelectedAll(env: Env, sels: seq<Selector>, elems: seq<Path>)
    requires forall p :: p in elems ==> MatchesAny(env, sels, p)
    ensures Selected(env, sels, elems) == elems
  {
    if elems != [] {
      var init, last := elems[..|elems| - 1], elems[|elems| - 1];
      assert elems == init + [last] && last in elems;
      SelectedAll(env, sels, init);
    }
  }

  lemma MatchesOne(env: Env, sel: Selector, p: Path)
    ensures MatchesAny(env, [sel], p) <==> Matches(env, sel.lead, sel.tokens, p)
  {
    if Matches(env, sel.lead, sel.tokens, p) {
      assert Matches(env, [sel][0].lead, [sel][0].tokens, p);
    }
  }

  /** Matching the remaining tokens on the seed is matching all tokens on every element. */
  lemma SeedMeaning(env: Env, sel: Selector, find: Finder, i: nat)
    requires env.rootIsDocument ==> At(env.tree, []).kind == Document
    requires FindAgrees(env, find) && (sel.lead.None? || sel.lead.value == Descendant)
    requires i < |sel.tokens| && forall j :: i <= j < |sel.tokens| ==> sel.tokens[j].Filter?
    requires find(sel.tokens[i].f, env.context).Some?
    ensures var seed, rest := find(sel.tokens[i].f, env.context).value, sel.tokens[..i] + sel.tokens[i + 1..];
            && Increasing(seed) && (forall k :: 0 <= k < |seed| ==> Has(env.tree, seed[k]))
            && Selected(env, [Selector(sel.lead, rest)], seed) == Selected(env, [sel], Elements(env.tree))
            && (seed == [] || (rest == [] && sel.lead.None?) ==>
                  Selected(env, [Selector(sel.lead, rest)], seed) == seed)
  {
    var f := sel.tokens[i].f;
    var seed, rest := find(f, env.context).value, sel.tokens[..i] + sel.tokens[i + 1..];
    var sel' := Selector(sel.lead, rest);
    ElementsMeaning(env.tree);
    forall k | 0 <= k < |seed| ensures Has(env.tree, seed[k]) { assert seed[k] in seed; }
    forall p ensures p in seed && MatchesAny(env, [sel'], p) <==> p in Elements(env.tree) && MatchesAny(env, [sel], p) {
      MatchesOne(env, sel, p);
      MatchesOne(env, sel', p);
      DropFilter(env, sel.lead, sel.tokens, i, p);
      SearchRootCovers(env, sel, false, p);
    }
    SelectedSame(env, [sel'], seed, env, [sel], Elements(env.tree));
    if rest == [] && sel.lead.None? {
      forall p | p in seed ensures MatchesAny(env, [sel'], p) { MatchesOne(env, sel', p); }
      SelectedAll(env, [sel'], seed);
    }
  }

  /** Replacing the context by the element with the leading id changes nothing. */
  lemma ShortcutMeaning(env: Env, sel: Selector, isId: nat -> bool, find: Finder)
    requires env.rootIsDocument ==> At(env.tree, []).kind == Document
    requires FindAgrees(env, find) && IdsUnique(env, isId, find) && env.InDocumentContext()
    requires sel.lead.None? && |sel.tokens| > 2 && sel.tokens[0].Filter? && isId(sel.tokens[0].f) && sel.tokens[1].Comb?
    ensures var found := find(sel.tokens[0].f, []).value;
            && (found == [] ==> Selected(env, [sel], Elements(env.tree)) == [])
            && (found != [] ==> Has(env.tree, found[0]))
            && (found != [] ==>
                  Selected(env, [sel], Elements(env.tree))
                  == Selected(env.(context := found[0]), [Selector(Some(sel.tokens[1].c), sel.tokens[2..])],
                              Elements(env.tree)))
  {
    var f, c, rest := sel.tokens[0].f, sel.tokens[1].c, sel.tokens[2..];
    var found := find(f, []).value;
    assert sel.tokens == [Filter(f), Comb(c)] + rest;
    ElementsMeaning(env.tree);
    forall y ensures IsElement(env.tree, y) && env.sat(f, y) <==> y in found {
      assert y != [] ==> y[..0] == [];
    }
    if found == [] {
      forall p ensures !MatchesAny(env, [sel], p) {
        IdMissing(env, f, c, rest, p);
        MatchesOne(env, sel, p);
      }
      SelectedSame(env, [sel], Elements(env.tree), env, [sel], []);
    } else {
      var e, sel' := found[0], Selector(Some(c), rest);
      assert e in found;
      forall p ensures MatchesAny(env, [sel], p) <==> MatchesAny(env.(context := e), [sel'], p) {
        IdBecomesContext(env, f, c, rest, e, p);
        MatchesOne(env, sel, p);
        MatchesOne(env.(context := e), sel', p);
      }
      SelectedSame(env, [sel], Elements(env.tree), env.(context := e), [sel'], Elements(env.tree));
    }
  }

  /** Compile a group and run it over the candidates. */
  method CompileAndRun(z: Sizzle, env: Env, group: seq<Selector>, elems: seq<Path>) returns (results: seq<Path>)
    requires z.Valid() && z.outermostContext == None && InnerNodesAreElements(env.tree)
    requires Increasing(elems) && forall i :: 0 <= i < |elems| ==> Has(env.tree, elems[i])
    modifies z
    ensures z.Valid() && z.outermostContext == None
    ensures results == Selected(env, group, elems)
  {
    var matchers := z.Compile(group);
    var runs;
    results, runs := z.SuperMatcher(env, matchers, elems, 0);
    forall p ensures MatchesAny(env, AsSelectors(matchers), p) <==> MatchesAny(env, group, p) {
      CompiledOrder(env, group, AsSelectors(matchers), p);
    }
    SelectedSame(env, AsSelectors(matchers), elems, env, group, elems);
  }

  /** select(selector, context, results) without a seed. group is the tokenised selector; plusOrTilde says whether
      the text contains a + or ~ besides its combinators, positionalText whether it looks positional. */
  method Select(z: Sizzle, env: Env, group: seq<Selector>, isId: nat -> bool, find: Finder,
                plusOrTilde: bool, positionalText: bool) returns (results: seq<Path>)
    requires z.Valid() && z.outermostContext == None
    requires InnerNodesAreElements(env.tree) && Has(env.tree, env.context)
    requires env.rootIsDocument ==> At(env.tree, []).kind == Document
    requires FindAgrees(env, find) && IdsUnique(env, isId, find)
    modifies z
    ensures z.Valid() && z.outermostContext == None
    ensures results == Selected(env, group, Elements(env.tree))
  {
    ElementsMeaning(env.tree);
    if |group| == 1 {
      var sel, context := group[0], env.context;
      assert group == [sel];
      if |sel.tokens| > 2 && sel.lead.None? && sel.tokens[0].Filter? && isId(sel.tokens[0].f)
         && env.InDocumentContext() && sel.tokens[1].Comb?
      {
        var found := find(sel.tokens[0].f, context).value;
        ShortcutMeaning(env, sel, isId, find);
        if found == [] {
          return [];
        }
        assert found[0] in found;
        context := found[0];
        sel := Selector(Some(sel.tokens[1].c), sel.tokens[2..]);
      }
      results := SelectOne(z, env.(context := context), sel, find, plusOrTilde, positionalText);
    } else {
      var expand := plusOrTilde || exists i :: 0 <= i < |group| && HasSiblingCombinator(group[i]);
      var elems := ElementsBelow(env.tree, SearchRoot(env, expand));
      CoveredBy(env, group, expand);
      results := CompileAndRun(z, env, group, elems);
    }
  }

  /** The part of select after the id shortcut, for a single selector. */
  method SelectOne(z: Sizzle, env: Env, sel: Selector, find: Finder, plusOrTilde: bool, positionalText: bool)
    returns (results: seq<Path>)
    requires z.Valid() && z.outermostContext == None
    requires InnerNodesAreElements(env.tree) && Has(env.tree, env.context)
    requires env.rootIsDocument ==> At(env.tree, []).kind == Document
    requires FindAgrees(env, find)
    modifies z
    ensures z.Valid() && z.outermostContext == None
    ensures results == Selected(env, [sel], Elements(env.tree))
  {
    ElementsMeaning(env.tree);
    var needsContext := positionalText || (sel.lead.Some? && sel.lead.value != Descendant);
    var tokens := sel.tokens;
    var seed := None;
    var i := if needsContext then 0 else |tokens|;
    while i > 0
      invariant 0 <= i <= |tokens| && seed.None? && tokens == sel.tokens
      invariant needsContext ==> i == 0
      invariant !needsContext ==> forall j :: i <= j < |tokens| ==> tokens[j].Filter?
    {
      i := i - 1;
      if tokens[i].Comb? { break; }
      seed := find(tokens[i].f, env.context);
      if seed.Some? {
        var rest := tokens[..i] + tokens[i + 1..];
        SeedMeaning(env, sel, find, i);
        if seed.value == [] || (rest == [] && sel.lead.None?) {
          return seed.value;
        }
        results := CompileAndRun(z, env, [Selector(sel.lead, rest)], seed.value);
        return;
      }
    }
    var expand := plusOrTilde || HasSiblingCombinator(sel);
    var elems := ElementsBelow(env.tree, SearchRoot(env, expand));
    CoveredBy(env, [sel], expand);
    results := CompileAndRun(z, env, [sel], elems);
  }
}
