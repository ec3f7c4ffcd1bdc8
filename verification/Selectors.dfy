/** What a selector means: the reference against which the compiled matchers are proved. */
module Selectors {
  import opened Dom
  import opened Wrappers

  datatype Combinator = Descendant | Child | Sibling | Adjacent

  /** A token of one comma-free selector: a simple filter, known by a number, or a combinator. */
  datatype Token = Filter(f: nat) | Comb(c: Combinator)

  /** A compound-by-compound selector. lead is the combinator it starts with, if any; tokens is the rest. */
  datatype Selector = Selector(lead: Option<Combinator>, tokens: seq<Token>)

  /** The surroundings of a search. sat says which nodes a simple filter accepts. */
  datatype Env = Env(tree: Node, rootIsDocument: bool, context: Path, sat: (nat, Path) -> bool) {
    predicate InDocumentContext() {
      rootIsDocument && context == []
    }
  }

  predicate EarlierSibling(y: Path, x: Path) {
    |y| == |x| && x != [] && y[..|y| - 1] == x[..|x| - 1] && y[|y| - 1] < x[|x| - 1]
  }

  /** y stands to x as the combinator asks (Selectors Level 3, section 8). With any = true, nodes that are
      not elements qualify as ancestors as well. */
  ghost predicate Related(t: Node, c: Combinator, any: bool, y: Path, x: Path) {
    match c
    case Descendant => ProperPrefix(y, x) && (any || IsElement(t, y))
    case Child => x != [] && y == x[..|x| - 1] && (any || IsElement(t, y))
    case Sibling => EarlierSibling(y, x) && IsElement(t, y)
    case Adjacent =>
      && EarlierSibling(y, x) && IsElement(t, y)
      && forall z :: EarlierSibling(y, z) && EarlierSibling(z, x) ==> !IsElement(t, z)
  }

  /** x is reachable from the context: below the document, or related to the context as the selector starts. */
  ghost predicate Reachable(env: Env, lead: Option<Combinator>, x: Path) {
    match lead
    case None => env.InDocumentContext() || Related(env.tree, Descendant, true, env.context, x)
    case Some(c) => Related(env.tree, c, true, env.context, x)
  }

  /** x is selected: read the tokens from the right. */
  ghost predicate Matches(env: Env, lead: Option<Combinator>, tokens: seq<Token>, x: Path)
    decreases |tokens|
  {
    if tokens == [] then Reachable(env, lead, x)
    else
      var init := tokens[..|tokens| - 1];
      match tokens[|tokens| - 1]
      case Filter(f) => env.sat(f, x) && Matches(env, lead, init, x)
      case Comb(c) => exists y :: Related(env.tree, c, false, y, x) && Matches(env, lead, init, y)
  }

  ghost predicate MatchesAny(env: Env, sels: seq<Selector>, x: Path) {
    exists i :: 0 <= i < |sels| && Matches(env, sels[i].lead, sels[i].tokens, x)
  }

  /** The members of elems that some selector of the group selects, in their order. */
  ghost function Selected(env: Env, sels: seq<Selector>, elems: seq<Path>): seq<Path> {
    if elems == [] then []
    else
      var init, last := elems[..|elems| - 1], elems[|elems| - 1];
      Selected(env, sels, init) + (if MatchesAny(env, sels, last) then [last] else [])
  }
}
