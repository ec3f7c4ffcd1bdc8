/** jQuery's ajaxConvert: walk the list of data types, converting the response from each to the next, directly or
    through one intermediate type that is spliced into the list being walked. */
module AjaxConvert {
  import opened Wrappers

  type Type = string

  /** A converter is a function, known by a number, or the value true: the two types are equivalent. */
  datatype Conv = Fun(id: nat) | Equivalent

  /** s.converters after lower-casing: one entry "from to" each, in the order of for-in. */
  datatype Entry = Entry(from: Type, to: Type, conv: Conv)

  /** A response: the original one, or what a converter function made of another. */
  datatype Response = Raw | Applied(id: nat, arg: Response)

  /** How a conversion ends: with the data; with a parse error, because a function failed or because there is none; or,
      where failures are to bubble, with the exception of the function that failed. */
  datatype Outcome =
    | Success(data: Response)
    | ParseError(from: Type, to: Type, thrown: bool)
    | Escaped(from: Type, to: Type)

  /** Which function fails on which response, and whether failures are to bubble (s["throws"]). */
  datatype Faults = Faults(fails: (nat, Response) -> bool, bubble: bool)

  function Lookup(cs: seq<Entry>, from: Type, to: Type): Option<Conv> {
    if cs == [] then None
    else if cs[0].from == from && cs[0].to == to then Some(cs[0].conv)
    else Lookup(cs[1..], from, to)
  }

  /** The converter for just these types, or else the one that takes any type to the second. */
  function Direct(cs: seq<Entry>, from: Type, to: Type): Option<Conv> {
    var c := Lookup(cs, from, to);
    if c.Some? then c else Lookup(cs, "*", to)
  }

  lemma {:induction false} LookupMeaning(cs: seq<Entry>, from: Type, to: Type)
    ensures Lookup(cs, from, to).Some? ==> Entry(from, to, Lookup(cs, from, to).value) in cs
    ensures Lookup(cs, from, to).None? ==> forall c :: c in cs ==> !(c.from == from && c.to == to)
  {
    if cs != [] && !(cs[0].from == from && cs[0].to == to) {
      LookupMeaning(cs[1..], from, to);
    }
  }

  // ---- which entry decides ----

  /** Entry k is the first with these two types. */
  ghost predicate FirstAt(cs: seq<Entry>, k: nat, from: Type, to: Type) {
    && k < |cs| && cs[k].from == from && cs[k].to == to
    && forall j :: 0 <= j < k ==> !(cs[j].from == from && cs[j].to == to)
  }

  /** Entry k is the one for a single step: the entry for just these types, and only for want of any such entry the one
      that takes any type to the second. */
  ghost predicate Decides(cs: seq<Entry>, k: nat, from: Type, to: Type) {
    || FirstAt(cs, k, from, to)
    || (FirstAt(cs, k, "*", to) && forall j :: 0 <= j < |cs| ==> !(cs[j].from == from && cs[j].to == to))
  }

  /** No entry takes the first type, or any type, to the second. */
  ghost predicate NoDirect(cs: seq<Entry>, from: Type, to: Type) {
    forall j :: 0 <= j < |cs| && cs[j].to == to ==> cs[j].from != from && cs[j].from != "*"
  }

  /** For want of a direct one: entry k is the first into the second type whose input some entry can make of the first,
      and entry j is the one that decides on that. */
  ghost predicate PairAt(cs: seq<Entry>, j: nat, k: nat, from: Type, to: Type) {
    && NoDirect(cs, from, to)
    && k < |cs| && cs[k].to == to && Decides(cs, j, from, cs[k].from)
    && forall i :: 0 <= i < k && cs[i].to == to ==> NoDirect(cs, from, cs[i].from)
  }

  /** The first entry with these two types is the one a lookup finds. */
  lemma {:induction false} LookupFirst(cs: seq<Entry>, from: Type, to: Type, k: nat)
    requires FirstAt(cs, k, from, to)
    ensures Lookup(cs, from, to) == Some(cs[k].conv)
  {
    if k > 0 { LookupFirst(cs[1..], from, to, k - 1); }
  }

  lemma {:induction false} LookupAt(cs: seq<Entry>, from: Type, to: Type) returns (k: nat)
    requires Lookup(cs, from, to).Some?
    ensures FirstAt(cs, k, from, to)
  {
    if cs[0].from == from && cs[0].to == to {
      k := 0;
    } else {
      k := LookupAt(cs[1..], from, to);
      k := k + 1;
      assert cs[k] == cs[1..][k - 1];
    }
  }

  /** A direct search finds the converter of the entry that decides, if there is one. */
  lemma DirectMeaning(cs: seq<Entry>, from: Type, to: Type)
    ensures forall k: nat :: Decides(cs, k, from, to) ==> Direct(cs, from, to) == Some(cs[k].conv)
    ensures Direct(cs, from, to).Some? ==> exists k: nat :: Decides(cs, k, from, to)
    ensures Direct(cs, from, to).None? <==> NoDirect(cs, from, to)
  {
    LookupMeaning(cs, from, to);
    LookupMeaning(cs, "*", to);
    forall k: nat | Decides(cs, k, from, to) ensures Direct(cs, from, to) == Some(cs[k].conv) {
      if FirstAt(cs, k, from, to) { LookupFirst(cs, from, to, k); } else { LookupFirst(cs, "*", to, k); }
    }
    if Lookup(cs, from, to).Some? {
      var k := LookupAt(cs, from, to);
      assert Decides(cs, k, from, to);
    } else if Lookup(cs, "*", to).Some? {
      var k := LookupAt(cs, "*", to);
      assert Decides(cs, k, from, to);
    }
  }

  /** The input side of every entry is a word. */
  ghost predicate Registry(cs: seq<Entry>) {
    forall c :: c in cs ==> c.from != ""
  }

  // ---- what a response is worth ----

  /** One step of a conversion: the registered function or equivalence that takes a value of type from to type to. */
  datatype Hop = Hop(from: Type, to: Type, conv: Conv)

  /** It is the converter of the entry that decides on the step. */
  ghost predicate HopOk(cs: seq<Entry>, h: Hop) {
    exists k: nat :: Decides(cs, k, h.from, h.to) && cs[k].conv == h.conv
  }

  /** The hops lead from one type to another, each by the entry that decides on it. */
  ghost predicate Chain(cs: seq<Entry>, from: Type, hops: seq<Hop>, to: Type) {
    if hops == [] then from == to
    else
      var last := hops[|hops| - 1];
      last.to == to && HopOk(cs, last) && Chain(cs, from, hops[..|hops| - 1], last.from)
  }

  function Apply(c: Conv, r: Response): Response {
    if c.Fun? then Applied(c.id, r) else r
  }

  /** Applying the functions among the hops in turn; equivalences leave the value alone. */
  function Compose(r: Response, hops: seq<Hop>): Response {
    if hops == [] then r else Apply(hops[|hops| - 1].conv, Compose(r, hops[..|hops| - 1]))
  }

  /** From r, of type from, the converters registered for each hop make r', of type to. */
  ghost predicate Leads(cs: seq<Entry>, from: Type, r: Response, to: Type, r': Response) {
    exists hops :: Chain(cs, from, hops, to) && Compose(r, hops) == r'
  }

  /** One step of the list: nothing for the same type, else the deciding entry alone, else the pair. */
  ghost predicate StepTo(cs: seq<Entry>, from: Type, to: Type, r: Response, r': Response) {
    if from == to then r' == r
    else
      || (exists k: nat :: Decides(cs, k, from, to) && r' == Apply(cs[k].conv, r))
      || (exists j: nat, k: nat :: PairAt(cs, j, k, from, to) && r' == Apply(cs[k].conv, Apply(cs[j].conv, r)))
  }

  /** Step by step from r to r', through each type of the list that is not "*", in order. */
  ghost predicate Passes(cs: seq<Entry>, from: Type, rest: seq<Type>, r: Response, r': Response)
    decreases |rest|
  {
    if rest == [] then r' == r
    else if rest[0] == "*" then Passes(cs, from, rest[1..], r, r')
    else exists mid :: StepTo(cs, from, rest[0], r, mid) && Passes(cs, rest[0], rest[1..], mid, r')
  }

  lemma LeadsNowhere(cs: seq<Entry>, from: Type, r: Response)
    ensures Leads(cs, from, r, from, r)
  {
    assert Chain(cs, from, [], from) && Compose(r, []) == r;
  }

  lemma Extend(cs: seq<Entry>, from: Type, r: Response, mid: Type, r': Response, to: Type, c: Conv)
    requires Leads(cs, from, r, mid, r') && HopOk(cs, Hop(mid, to, c))
    ensures Leads(cs, from, r, to, Apply(c, r'))
  {
    var hops :| Chain(cs, from, hops, mid) && Compose(r, hops) == r';
    var longer := hops + [Hop(mid, to, c)];
    assert longer[..|longer| - 1] == hops;
    assert Chain(cs, from, longer, to) && Compose(r, longer) == Apply(c, r');
  }

  lemma {:induction false} ChainOn(cs: seq<Entry>, from: Type, r: Response, mid: Type, r': Response, hops: seq<Hop>,
                                   to: Type)
    requires Leads(cs, from, r, mid, r') && Chain(cs, mid, hops, to)
    ensures Leads(cs, from, r, to, Compose(r', hops))
  {
    if hops != [] {
      var n := |hops| - 1;
      ChainOn(cs, from, r, mid, r', hops[..n], hops[n].from);
      Extend(cs, from, r, hops[n].from, Compose(r', hops[..n]), to, hops[n].conv);
    }
  }

  lemma LeadsTrans(cs: seq<Entry>, from: Type, r: Response, mid: Type, r': Response, to: Type, r'': Response)
    requires Leads(cs, from, r, mid, r') && Leads(cs, mid, r', to, r'')
    ensures Leads(cs, from, r, to, r'')
  {
    var hops :| Chain(cs, mid, hops, to) && Compose(r', hops) == r'';
    ChainOn(cs, from, r, mid, r', hops, to);
  }

  lemma DirectHop(cs: seq<Entry>, from: Type, to: Type)
    requires Direct(cs, from, to).Some?
    ensures HopOk(cs, Hop(from, to, Direct(cs, from, to).value))
  {
    DirectMeaning(cs, from, to);
    var k: nat :| Decides(cs, k, from, to);
  }

  /** The second entry of a pair decides on the step it makes. */
  lemma SecondDecides(cs: seq<Entry>, j: nat, k: nat, from: Type, to: Type)
    requires PairAt(cs, j, k, from, to)
    ensures FirstAt(cs, k, cs[k].from, to)
  {
    forall i | 0 <= i < k ensures !(cs[i].from == cs[k].from && cs[i].to == to) {
      if cs[i].to == to { assert cs[j].to == cs[k].from && NoDirect(cs, from, cs[i].from); }
    }
  }

  lemma StepLeads(cs: seq<Entry>, from: Type, to: Type, r: Response, r': Response)
    requires StepTo(cs, from, to, r, r')
    ensures Leads(cs, from, r, to, r')
  {
    LeadsNowhere(cs, from, r);
    if from != to {
      if k: nat :| Decides(cs, k, from, to) && r' == Apply(cs[k].conv, r) {
        Extend(cs, from, r, from, r, to, cs[k].conv);
      } else {
        var j: nat, k: nat :| PairAt(cs, j, k, from, to) && r' == Apply(cs[k].conv, Apply(cs[j].conv, r));
        SecondDecides(cs, j, k, from, to);
        assert Decides(cs, k, cs[k].from, to);
        Extend(cs, from, r, from, r, cs[k].from, cs[j].conv);
        Extend(cs, from, r, cs[k].from, Apply(cs[j].conv, r), to, cs[k].conv);
      }
    }
  }

  /** Passing through the types of a list leads to the last of them. */
  lemma {:induction false} PassesLeads(cs: seq<Entry>, from: Type, rest: seq<Type>, r: Response, r': Response)
    requires Passes(cs, from, rest, r, r')
    ensures Leads(cs, from, r, LastType(from, rest), r')
    decreases |rest|
  {
    if rest == [] {
      LeadsNowhere(cs, from, r);
    } else if rest[0] == "*" {
      PassesLeads(cs, from, rest[1..], r, r');
    } else {
      var mid :| StepTo(cs, from, rest[0], r, mid) && Passes(cs, rest[0], rest[1..], mid, r');
      StepLeads(cs, from, rest[0], r, mid);
      PassesLeads(cs, rest[0], rest[1..], mid, r');
      LeadsTrans(cs, from, r, rest[0], mid, LastType(from, rest), r');
    }
  }

  // ---- the conversion without a list that changes ----

  /** What there is for a step: nothing, one converter, or two with a type between them. */
  datatype Pair = NoPair | OneStep(conv: Conv) | TwoSteps(first: Conv, via: Type, second: Conv)

  /** The first entry into to, from the k-th on, whose input can be had from the type at hand. */
  function Pairing(cs: seq<Entry>, from: Type, to: Type, k: nat): (r: Option<nat>)
    ensures r.Some? ==> r.value < |cs| && cs[r.value].to == to && Direct(cs, from, cs[r.value].from).Some?
    decreases |cs| - k
  {
    if k >= |cs| then None
    else if cs[k].to == to && Direct(cs, from, cs[k].from).Some? then Some(k)
    else Pairing(cs, from, to, k + 1)
  }

  /** Two converters in a row, of which an equivalence is left out. */
  function Condensed(a: Conv, via: Type, b: Conv): Pair {
    if a.Equivalent? then OneStep(b) else if b.Equivalent? then OneStep(a) else TwoSteps(a, via, b)
  }

  function Chosen(cs: seq<Entry>, from: Type, to: Type): Pair {
    var direct := Direct(cs, from, to);
    if direct.Some? then OneStep(direct.value)
    else
      var k := Pairing(cs, from, to, 0);
      if k.None? then NoPair
      else Condensed(Direct(cs, from, cs[k.value].from).value, cs[k.value].from, cs[k.value].conv)
  }

  function Failed(faults: Faults, from: Type, to: Type): Outcome {
    if faults.bubble then Escaped(from, to) else ParseError(from, to, true)
  }

  /** Applying one converter, which may fail on the response. */
  function Try(c: Conv, from: Type, to: Type, r: Response, faults: Faults): Outcome {
    if c.Fun? && faults.fails(c.id, r) then Failed(faults, from, to) else Success(Apply(c, r))
  }

  function Follow(p: Pair, from: Type, to: Type, r: Response, faults: Faults): Outcome {
    match p
    case NoPair => ParseError(from, to, false)
    case OneStep(c) => Try(c, from, to, r, faults)
    case TwoSteps(a, via, b) =>
      var half := Try(a, from, via, r, faults);
      if half.Success? then Try(b, via, to, half.data, faults) else half
  }

  /** From each type to the next that is not "*", in turn. */
  function Converted(cs: seq<Entry>, from: Type, rest: seq<Type>, r: Response, faults: Faults)
    : Outcome
    decreases |rest|
  {
    if rest == [] then Success(r)
    else if rest[0] == "*" || rest[0] == from then Converted(cs, from, rest[1..], r, faults)
    else
      var next := Follow(Chosen(cs, from, rest[0]), from, rest[0], r, faults);
      if next.Success? then Converted(cs, rest[0], rest[1..], next.data, faults) else next
  }

  /** Neither a direct converter nor a pair leads from one type to the other. */
  ghost predicate Unreachable(cs: seq<Entry>, from: Type, to: Type) {
    && NoDirect(cs, from, to)
    && forall k :: 0 <= k < |cs| && cs[k].to == to ==> NoDirect(cs, from, cs[k].from)
  }

  lemma {:induction false} PairingIsFirst(cs: seq<Entry>, from: Type, to: Type, k: nat)
    ensures var found := Pairing(cs, from, to, k);
            && (found.Some? ==> k <= found.value)
            && forall j :: k <= j < (if found.Some? then found.value else |cs|) && cs[j].to == to ==>
                 NoDirect(cs, from, cs[j].from)
    decreases |cs| - k
  {
    if k < |cs| {
      DirectMeaning(cs, from, cs[k].from);
      if !(cs[k].to == to && Direct(cs, from, cs[k].from).Some?) { PairingIsFirst(cs, from, to, k + 1); }
    }
  }

  /** Nothing is chosen exactly when there is nothing to choose. */
  lemma NothingChosen(cs: seq<Entry>, from: Type, to: Type)
    ensures Chosen(cs, from, to).NoPair? <==> Unreachable(cs, from, to)
  {
    PairingIsFirst(cs, from, to, 0);
    DirectMeaning(cs, from, to);
    var found := Pairing(cs, from, to, 0);
    if found.Some? { DirectMeaning(cs, from, cs[found.value].from); }
  }

  /** What is chosen is fixed by the entries: the one that decides on the step; else the pair, less an equivalence. */
  ghost predicate RightChoice(cs: seq<Entry>, from: Type, to: Type, p: Pair) {
    && (forall k: nat :: Decides(cs, k, from, to) ==> p == OneStep(cs[k].conv))
    && (forall j: nat, k: nat :: PairAt(cs, j, k, from, to) ==>
          p == match (cs[j].conv, cs[k].conv)
               case (Equivalent, second) => OneStep(second)
               case (first, Equivalent) => OneStep(first)
               case (first, second) => TwoSteps(first, cs[k].from, second))
    && (Unreachable(cs, from, to) <==> p.NoPair?)
  }

  lemma ChosenMeaning(cs: seq<Entry>, from: Type, to: Type)
    ensures RightChoice(cs, from, to, Chosen(cs, from, to))
  {
    DirectMeaning(cs, from, to);
    NothingChosen(cs, from, to);
    forall j: nat, k: nat | PairAt(cs, j, k, from, to)
      ensures Pairing(cs, from, to, 0) == Some(k) && Direct(cs, from, cs[k].from) == Some(cs[j].conv)
    {
      DirectMeaning(cs, from, cs[k].from);
      PairFound(cs, j, k, from, to);
    }
  }

  lemma PairFound(cs: seq<Entry>, j: nat, k: nat, from: Type, to: Type)
    requires PairAt(cs, j, k, from, to)
    ensures Pairing(cs, from, to, 0) == Some(k)
  {
    DirectMeaning(cs, from, cs[k].from);
    PairingIsFirst(cs, from, to, 0);
    assert cs[j].to == cs[k].from && !NoDirect(cs, from, cs[k].from);
    var found := Pairing(cs, from, to, 0);
    if found.Some? && found.value < k {
      assert NoDirect(cs, from, cs[found.value].from);
      DirectMeaning(cs, from, cs[found.value].from);
    }
  }

  /** If nothing is direct and something is chosen, it is a pair. */
  lemma PairExists(cs: seq<Entry>, from: Type, to: Type) returns (j: nat, k: nat)
    requires NoDirect(cs, from, to) && !Unreachable(cs, from, to)
    ensures PairAt(cs, j, k, from, to) && Pairing(cs, from, to, 0) == Some(k)
    ensures Direct(cs, from, cs[k].from) == Some(cs[j].conv)
  {
    NothingChosen(cs, from, to);
    DirectMeaning(cs, from, to);
    PairingIsFirst(cs, from, to, 0);
    k := Pairing(cs, from, to, 0).value;
    DirectMeaning(cs, from, cs[k].from);
    j :| Decides(cs, j, from, cs[k].from);
  }

  /** The second half of a pair is what a direct search from the intermediate type finds, and that type is neither
      of the two, nor "*". */
  lemma SecondHalf(cs: seq<Entry>, from: Type, to: Type)
    requires Chosen(cs, from, to).TwoSteps?
    ensures var p := Chosen(cs, from, to);
            p.first.Fun? && p.second.Fun? && Direct(cs, p.via, to) == Some(p.second) && (Registry(cs) ==> p.via != "")
    ensures Chosen(cs, from, to).via != to && Chosen(cs, from, to).via != from && Chosen(cs, from, to).via != "*"
  {
    DirectMeaning(cs, from, to);
    NothingChosen(cs, from, to);
    var j, k := PairExists(cs, from, to);
    SecondDecides(cs, j, k, from, to);
    LookupFirst(cs, cs[k].from, to, k);
    assert cs[k] in cs;
    assert cs[j].to == cs[k].from;
  }

  // ---- what the conversion means ----

  /** No function failed on the way to r. */
  predicate NoneThrew(faults: Faults, r: Response) {
    r.Raw? || (!faults.fails(r.id, r.arg) && NoneThrew(faults, r.arg))
  }

  /** What had been converted to the first type made the function that leads to the second one fail. */
  ghost predicate Threw(cs: seq<Entry>, faults: Faults, start: Type, r0: Response,
                        from: Type, to: Type)
  {
    exists id, r ::
      && faults.fails(id, r) && NoneThrew(faults, r)
      && Leads(cs, start, r0, from, r) && Leads(cs, start, r0, to, Applied(id, r))
  }

  /** The response had been converted to the first type, and nothing leads on to the second one. */
  ghost predicate Stuck(cs: seq<Entry>, faults: Faults, start: Type, r0: Response,
                        from: Type, to: Type)
  {
    Unreachable(cs, from, to) && exists r :: NoneThrew(faults, r) && Leads(cs, start, r0, from, r)
  }

  /** An error that is handed back, or escapes, has its cause at the step it names. */
  ghost predicate Explained(cs: seq<Entry>, faults: Faults, start: Type, r0: Response, out: Outcome) {
    match out
    case Success(_) => true
    case ParseError(from, to, thrown) =>
      if thrown then !faults.bubble && Threw(cs, faults, start, r0, from, to)
      else Stuck(cs, faults, start, r0, from, to)
    case Escaped(from, to) => faults.bubble && Threw(cs, faults, start, r0, from, to)
  }

  lemma TryMeaning(cs: seq<Entry>, start: Type, r0: Response, c: Conv, from: Type, to: Type, r: Response,
                   faults: Faults)
    requires Leads(cs, start, r0, from, r) && Leads(cs, start, r0, to, Apply(c, r)) && NoneThrew(faults, r)
    ensures var out := Try(c, from, to, r, faults);
            if out.Success? then out.data == Apply(c, r) && NoneThrew(faults, out.data)
            else out == Failed(faults, from, to) && Threw(cs, faults, start, r0, from, to)
  {
  }

  /** A step that succeeds has been made by the entries that decide on it; one that fails says why. */
  ghost predicate StepMeant(cs: seq<Entry>, start: Type, r0: Response, from: Type, to: Type, r: Response,
                            faults: Faults, out: Outcome)
  {
    && (out.Success? ==> StepTo(cs, from, to, r, out.data) && Leads(cs, start, r0, to, out.data)
                         && NoneThrew(faults, out.data))
    && Explained(cs, faults, start, r0, out)
  }

  /** One step, from a response that has come so far. */
  lemma FollowMeaning(cs: seq<Entry>, start: Type, r0: Response, from: Type, to: Type, r: Response,
                      faults: Faults)
    requires from != to && Leads(cs, start, r0, from, r) && NoneThrew(faults, r)
    ensures StepMeant(cs, start, r0, from, to, r, faults, Follow(Chosen(cs, from, to), from, to, r, faults))
  {
    ChosenMeaning(cs, from, to);
    DirectMeaning(cs, from, to);
    if Direct(cs, from, to).Some? {
      var k: nat :| Decides(cs, k, from, to);
      OneMeaning(cs, start, r0, from, to, r, k, faults);
    } else if !Unreachable(cs, from, to) {
      var j, k := PairExists(cs, from, to);
      PairMeaning(cs, start, r0, from, to, r, j, k, faults);
    }
  }

  lemma OneMeaning(cs: seq<Entry>, start: Type, r0: Response, from: Type, to: Type, r: Response, k: nat,
                   faults: Faults)
    requires from != to && Leads(cs, start, r0, from, r) && NoneThrew(faults, r) && Decides(cs, k, from, to)
    ensures StepMeant(cs, start, r0, from, to, r, faults, Try(cs[k].conv, from, to, r, faults))
  {
    Extend(cs, start, r0, from, r, to, cs[k].conv);
    TryMeaning(cs, start, r0, cs[k].conv, from, to, r, faults);
  }

  lemma PairMeaning(cs: seq<Entry>, start: Type, r0: Response, from: Type, to: Type, r: Response, j: nat, k: nat,
                    faults: Faults)
    requires from != to && Leads(cs, start, r0, from, r) && NoneThrew(faults, r) && PairAt(cs, j, k, from, to)
    ensures var p := Condensed(cs[j].conv, cs[k].from, cs[k].conv);
            StepMeant(cs, start, r0, from, to, r, faults, Follow(p, from, to, r, faults))
  {
    var via, a, b := cs[k].from, cs[j].conv, cs[k].conv;
    SecondDecides(cs, j, k, from, to);
    assert HopOk(cs, Hop(from, via, a));
    assert Decides(cs, k, via, to) && HopOk(cs, Hop(via, to, b));
    Extend(cs, start, r0, from, r, via, a);
    Extend(cs, start, r0, via, Apply(a, r), to, b);
    assert StepTo(cs, from, to, r, Apply(b, Apply(a, r)));
    if a.Equivalent? {
      TryMeaning(cs, start, r0, b, from, to, r, faults);
    } else if b.Equivalent? {
      TryMeaning(cs, start, r0, a, from, to, r, faults);
    } else {
      TryMeaning(cs, start, r0, a, from, via, r, faults);
      if !faults.fails(a.id, r) { TryMeaning(cs, start, r0, b, via, to, Apply(a, r), faults); }
    }
  }

  lemma {:induction false} ConvertedSteps(cs: seq<Entry>, start: Type, r0: Response, from: Type, rest: seq<Type>,
                                          r: Response, faults: Faults)
    requires Leads(cs, start, r0, from, r) && NoneThrew(faults, r)
    ensures var out := Converted(cs, from, rest, r, faults);
            && (out.Success? ==> Passes(cs, from, rest, r, out.data) && NoneThrew(faults, out.data))
            && Explained(cs, faults, start, r0, out)
    decreases |rest|
  {
    if rest == [] {
    } else if rest[0] == "*" {
      ConvertedSteps(cs, start, r0, from, rest[1..], r, faults);
    } else if rest[0] == from {
      LeadsNowhere(cs, from, r);
      ConvertedSteps(cs, start, r0, from, rest[1..], r, faults);
    } else {
      FollowMeaning(cs, start, r0, from, rest[0], r, faults);
      var next := Follow(Chosen(cs, from, rest[0]), from, rest[0], r, faults);
      if next.Success? { ConvertedSteps(cs, start, r0, rest[0], rest[1..], next.data, faults); }
    }
  }

  /** On success the response has passed through every type of the list by registered converters, none of which
      failed, and so come to the last of them; an error names the step at which one failed, or from which nothing
      leads on. */
  lemma ConvertedMeaning(cs: seq<Entry>, start: Type, r0: Response, from: Type, rest: seq<Type>,
                         r: Response, faults: Faults)
    requires Leads(cs, start, r0, from, r) && NoneThrew(faults, r)
    ensures var out := Converted(cs, from, rest, r, faults);
            && (out.Success? ==> Passes(cs, from, rest, r, out.data) && NoneThrew(faults, out.data)
                                 && Leads(cs, start, r0, LastType(from, rest), out.data))
            && Explained(cs, faults, start, r0, out)
  {
    ConvertedSteps(cs, start, r0, from, rest, r, faults);
    var out := Converted(cs, from, rest, r, faults);
    if out.Success? {
      PassesLeads(cs, from, rest, r, out.data);
      LeadsTrans(cs, start, r0, from, r, LastType(from, rest), out.data);
    }
  }

  /** How applying one function to a response must end. */
  ghost predicate Applies(id: nat, from: Type, to: Type, r: Response, faults: Faults, out: Outcome) {
    out == if !faults.fails(id, r) then Success(Applied(id, r))
           else if faults.bubble then Escaped(from, to)
           else ParseError(from, to, true)
  }

  /** How the conversion of the raw response by one step must end, by the entries that decide on it. */
  ghost predicate SingleStep(cs: seq<Entry>, from: Type, to: Type, faults: Faults, out: Outcome) {
    && (Unreachable(cs, from, to) ==> out == ParseError(from, to, false))
    && (forall k: nat :: Decides(cs, k, from, to) ==>
          match cs[k].conv
          case Equivalent => out == Success(Raw)
          case Fun(id) => Applies(id, from, to, Raw, faults, out))
    && (forall j: nat, k: nat :: PairAt(cs, j, k, from, to) ==> Paired(cs, j, k, from, to, faults, out))
  }

  ghost predicate Paired(cs: seq<Entry>, j: nat, k: nat, from: Type, to: Type, faults: Faults, out: Outcome)
    requires j < |cs| && k < |cs|
  {
    match (cs[j].conv, cs[k].conv)
    case (Equivalent, Equivalent) => out == Success(Raw)
    case (Fun(a), Equivalent) => Applies(a, from, to, Raw, faults, out)
    case (Equivalent, Fun(b)) => Applies(b, from, to, Raw, faults, out)
    case (Fun(a), Fun(b)) =>
      if faults.fails(a, Raw) then Applies(a, from, cs[k].from, Raw, faults, out)
      else Applies(b, cs[k].from, to, Applied(a, Raw), faults, out)
  }

  lemma SingleMeaning(cs: seq<Entry>, from: Type, to: Type, faults: Faults)
    requires from != to && to != "*"
    ensures SingleStep(cs, from, to, faults, Converted(cs, from, [to], Raw, faults))
  {
    ChosenMeaning(cs, from, to);
    var out := Follow(Chosen(cs, from, to), from, to, Raw, faults);
    assert Converted(cs, from, [to], Raw, faults) == out;
    forall j: nat, k: nat | PairAt(cs, j, k, from, to) ensures Paired(cs, j, k, from, to, faults, out) {
    }
  }

  // ---- the walk ----

  /** The work left: a hop that finds no direct converter may take two more turns. */
  function Cost(cs: seq<Entry>, prev: Type, rest: seq<Type>): nat
    decreases |rest|
  {
    if rest == [] then 0
    else if rest[0] == "*" then 1 + Cost(cs, prev, rest[1..])
    else (if prev == rest[0] || Direct(cs, prev, rest[0]).Some? then 1 else 3) + Cost(cs, rest[0], rest[1..])
  }

  /** The last type of the list that is not "*"; what the data should end up as. */
  function LastType(first: Type, rest: seq<Type>): Type
    decreases |rest|
  {
    if rest == [] then first else LastType(if rest[0] == "*" then first else rest[0], rest[1..])
  }

  /** Go through the registry in its order, for the first entry into current whose input prev can be converted to. */
  method SeekPair(cs: seq<Entry>, prev: Type, current: Type) returns (p: Pair)
    requires Direct(cs, prev, current).None?
    ensures p == Chosen(cs, prev, current)
    ensures p.NoPair? <==> Unreachable(cs, prev, current)
  {
    NothingChosen(cs, prev, current);
    var k := 0;
    while k < |cs|
      invariant 0 <= k <= |cs|
      invariant Pairing(cs, prev, current, 0) == Pairing(cs, prev, current, k)
    {
      var conv2 := cs[k];
      if conv2.to == current {
        var conv := Direct(cs, prev, conv2.from);
        if conv.Some? {
          if conv.value.Equivalent? {
            // condense an equivalence
            return OneStep(conv2.conv);
          } else if conv2.conv.Equivalent? {
            return OneStep(conv.value);
          } else {
            return TwoSteps(conv.value, conv2.from, conv2.conv);
          }
        }
      }
      k := k + 1;
    }
    return NoPair;
  }

  /** A direct converter for the step from prev to current, or else a pair. */
  method Choose(cs: seq<Entry>, prev: Type, current: Type) returns (p: Pair)
    ensures p == Chosen(cs, prev, current)
    ensures RightChoice(cs, prev, current, p)
  {
    ChosenMeaning(cs, prev, current);
    var conv := Direct(cs, prev, current);
    if conv.Some? {
      return OneStep(conv.value);
    }
    p := SeekPair(cs, prev, current);
  }

  /** A turn that comes to the end of a type has less work left; one that passes it over has the same outcome. */
  lemma MovedOn(cs: seq<Entry>, prev: Type, current: Type, rest: seq<Type>, r: Response, faults: Faults)
    ensures current == "*" || current == prev ==>
              && Cost(cs, prev, rest) < Cost(cs, prev, [current] + rest)
              && Converted(cs, prev, [current] + rest, r, faults) == Converted(cs, prev, rest, r, faults)
    ensures current != "*" ==> Cost(cs, current, rest) < Cost(cs, prev, [current] + rest)
  {
    assert ([current] + rest)[0] == current && ([current] + rest)[1..] == rest;
  }

  /** A turn that chooses one converter, or none, does what the plain conversion does. */
  lemma OneOrNone(cs: seq<Entry>, prev: Type, current: Type, rest: seq<Type>, r: Response, faults: Faults)
    requires prev != current && current != "*" && !Chosen(cs, prev, current).TwoSteps?
    ensures var p := Chosen(cs, prev, current);
            Converted(cs, prev, [current] + rest, r, faults)
            == if p.NoPair? then ParseError(prev, current, false)
               else if p.conv.Fun? && faults.fails(p.conv.id, r) then Failed(faults, prev, current)
               else Converted(cs, current, rest, Apply(p.conv, r), faults)
  {
    assert ([current] + rest)[0] == current && ([current] + rest)[1..] == rest;
  }

  /** A turn that splices in the intermediate type of a pair leaves the outcome as it was, and the work less. */
  lemma SplicedIn(cs: seq<Entry>, prev: Type, current: Type, rest: seq<Type>, r: Response,
                  faults: Faults)
    requires prev != current && current != "*" && Chosen(cs, prev, current).TwoSteps?
    ensures var p := Chosen(cs, prev, current);
            && Converted(cs, prev, [current] + rest, r, faults)
               == (if faults.fails(p.first.id, r) then Failed(faults, prev, p.via)
                   else Converted(cs, p.via, [current] + rest, Applied(p.first.id, r), faults))
            && Cost(cs, p.via, [current] + rest) < Cost(cs, prev, [current] + rest)
  {
    var p, list := Chosen(cs, prev, current), [current] + rest;
    SecondHalf(cs, prev, current);
    assert list[0] == current && list[1..] == rest;
    assert Chosen(cs, p.via, current) == OneStep(p.second);
  }

  /** ajaxConvert */
  method Convert(types: seq<Type>, cs: seq<Entry>, faults: Faults) returns (out: Outcome)
    requires Registry(cs)
    requires types != [] && types[0] != "*" && forall k :: 0 < k < |types| ==> types[k] != ""
    ensures out == Converted(cs, types[0], types[1..], Raw, faults)
    ensures out.Success? ==> Passes(cs, types[0], types[1..], Raw, out.data) && NoneThrew(faults, out.data)
    ensures out.Success? ==> Leads(cs, types[0], Raw, LastType(types[0], types[1..]), out.data)
    ensures Explained(cs, faults, types[0], Raw, out)
    ensures |types| == 2 && types[0] != types[1] && types[1] != "*" ==> SingleStep(cs, types[0], types[1], faults, out)
  {
    if |types| == 2 && types[0] != types[1] && types[1] != "*" {
      assert types[1..] == [types[1]];
      SingleMeaning(cs, types[0], types[1], faults);
    }
    LeadsNowhere(cs, types[0], Raw);
    ConvertedMeaning(cs, types[0], Raw, types[0], types[1..], Raw, faults);
    out := WalkTypes(types, cs, faults);
  }

  /** The loop, over a copy of the list of types that it changes as it goes. */
  method WalkTypes(types: seq<Type>, cs: seq<Entry>, faults: Faults) returns (out: Outcome)
    requires Registry(cs)
    requires types != [] && types[0] != "*" && forall k :: 0 < k < |types| ==> types[k] != ""
    ensures out == Converted(cs, types[0], types[1..], Raw, faults)
  {
    var dataTypes := types;
    var prev := dataTypes[0];
    var response := Raw;
    var i := 1;
    while i < |dataTypes| && dataTypes[i] != ""
      invariant 1 <= i <= |dataTypes| && prev != "*"
      invariant forall k :: 0 < k < |dataTypes| ==> dataTypes[k] != ""
      invariant Converted(cs, prev, dataTypes[i..], response, faults)
                == Converted(cs, types[0], types[1..], Raw, faults)
      decreases Cost(cs, prev, dataTypes[i..])
    {
      var current := dataTypes[i];
      ghost var rest := dataTypes[i + 1..];
      assert dataTypes[i..] == [current] + rest;
      MovedOn(cs, prev, current, rest, response, faults);
      if current != "*" {
        if prev != current {
          var p := Choose(cs, prev, current);
          if !p.TwoSteps? { OneOrNone(cs, prev, current, rest, response, faults); }
          if p.NoPair? {
            return ParseError(prev, current, false);
          }
          var conv := if p.OneStep? then p.conv else p.first;
          if p.TwoSteps? {
            // insert the intermediate type; the next turn meets it again
            SplicedIn(cs, prev, current, rest, response, faults);
            SecondHalf(cs, prev, current);
            dataTypes := dataTypes[..i] + [p.via] + dataTypes[i..];
            assert dataTypes[i + 1..] == [current] + rest;
            current := p.via;
            i := i - 1;
          }
          if conv.Fun? {
            if faults.fails(conv.id, response) {
              return if faults.bubble then Escaped(prev, current) else ParseError(prev, current, true);
            }
            response := Applied(conv.id, response);
          }
        }
        prev := current;
      }
      i := i + 1;
    }
    assert dataTypes[i..] == [];
    out := Success(response);
  }
}
