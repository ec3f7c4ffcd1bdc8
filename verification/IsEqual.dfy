/** Underscore's isEqual on finite acyclic values. */
module IsEqual {

  datatype Num = NaN | NegativeZero | Num(n: int)

  /** A constructor function; selfInstance says that it is an instance of itself, as Object is. */
  datatype Ctor = Ctor(id: nat, selfInstance: bool)

  /** Values. ref is the identity of an object; props are its own enumerable properties in for-in order. */
  datatype Value =
    | Undefined | Null
    | Bool(b: bool) | Number(x: Num) | Str(s: string)
    | Func(ref: nat)
    | Date(ref: nat, time: int, valid: bool)
    | RegExp(ref: nat, source: string, flags: (bool, bool, bool))
    | Array(ref: nat, elems: seq<Value>)
    | Object(ref: nat, ctor: Ctor, props: seq<(string, Value)>)

  predicate HasRef(v: Value) {
    v.Func? || v.Date? || v.RegExp? || v.Array? || v.Object?
  }

  /** Objects.prototype.toString */
  function Tag(v: Value): nat {
    match v
    case Undefined => 0 case Null => 1 case Bool(_) => 2 case Number(_) => 3 case Str(_) => 4
    case Func(_) => 5 case Date(_, _, _) => 6 case RegExp(_, _, _) => 7 case Array(_, _) => 8 case Object(_, _, _) => 9
  }

  predicate HasKey(props: seq<(string, Value)>, key: string) {
    exists i :: 0 <= i < |props| && props[i].0 == key
  }

  function Prop(props: seq<(string, Value)>, key: string): Value
    requires HasKey(props, key)
    ensures exists i :: 0 <= i < |props| && props[i] == (key, Prop(props, key))
  {
    if props[0].0 == key then props[0].1
    else
      assert HasKey(props[1..], key) by {
        var i :| 0 <= i < |props| && props[i].0 == key;
        assert props[1..][i - 1] == props[i];
      }
      var v := Prop(props[1..], key);
      assert exists i :: 0 <= i < |props| && props[i] == (key, v) by {
        var i :| 0 <= i < |props[1..]| && props[1..][i] == (key, v);
        assert props[i + 1] == (key, v);
      }
      v
  }

  ghost predicate DistinctKeys(props: seq<(string, Value)>) {
    forall i, j :: 0 <= i < j < |props| ==> props[i].0 != props[j].0
  }

  /** Every object reached is the one the heap holds under its identity, and keys are not repeated. */
  ghost predicate InHeap(heap: map<nat, Value>, v: Value) {
    && (HasRef(v) ==> v.ref in heap && heap[v.ref] == v)
    && (v.Array? ==> forall i :: 0 <= i < |v.elems| ==> InHeap(heap, v.elems[i]))
    && (v.Object? ==> DistinctKeys(v.props) && forall i :: 0 <= i < |v.props| ==> InHeap(heap, v.props[i].1))
  }

  function Size(v: Value): nat
    decreases v, 1, 0
  {
    match v
    case Array(_, elems) => 1 + SizeElems(v, 0)
    case Object(_, _, props) => 1 + SizeProps(v, 0)
    case _ => 1
  }

  function SizeElems(v: Value, i: nat): nat
    requires v.Array?
    decreases v, 0, |v.elems| - i
  {
    if i >= |v.elems| then 0 else Size(v.elems[i]) + SizeElems(v, i + 1)
  }

  function SizeProps(v: Value, i: nat): nat
    requires v.Object?
    decreases v, 0, |v.props| - i
  {
    if i >= |v.props| then 0 else Size(v.props[i].1) + SizeProps(v, i + 1)
  }

  lemma {:induction false} ElementSmaller(v: Value, i: nat, k: nat)
    requires v.Array? && i <= k < |v.elems|
    ensures Size(v.elems[k]) <= SizeElems(v, i)
    decreases k - i
  {
    if i < k { ElementSmaller(v, i + 1, k); }
  }

  lemma {:induction false} PropSmaller(v: Value, i: nat, k: nat)
    requires v.Object? && i <= k < |v.props|
    ensures Size(v.props[k].1) <= SizeProps(v, i)
    decreases k - i
  {
    if i < k { PropSmaller(v, i + 1, k); }
  }

  // ---- the reference ----

  /** Structural equality: the same kind of value with the same contents; objects with the same keys. */
  ghost predicate Equal(a: Value, b: Value)
    decreases a
  {
    match a
    case Undefined => b.Undefined?
    case Null => b.Null?
    case Bool(_) => b == a
    case Number(_) => b == a
    case Str(_) => b == a
    case Func(r) => b.Func? && b.ref == r
    case Date(r, t, v) => b.Date? && (b.ref == r || (v && b.valid && b.time == t))
    case RegExp(_, s, f) => b.RegExp? && b.source == s && b.flags == f
    case Array(_, elems) =>
      b.Array? && |elems| == |b.elems| && forall i :: 0 <= i < |elems| ==> Equal(elems[i], b.elems[i])
    case Object(_, c, props) =>
      && b.Object? && (c != b.ctor ==> c.selfInstance && b.ctor.selfInstance)
      && (forall i :: 0 <= i < |props| ==> HasKey(b.props, props[i].0) && Equal(props[i].1, Prop(b.props, props[i].0)))
      && (forall j :: 0 <= j < |b.props| ==> HasKey(props, b.props[j].0))
  }

  lemma {:induction false} EqualReflexive(heap: map<nat, Value>, a: Value)
    requires InHeap(heap, a)
    ensures Equal(a, a)
    decreases a
  {
    match a
    case Array(_, elems) =>
      forall i | 0 <= i < |elems| ensures Equal(elems[i], elems[i]) { EqualReflexive(heap, elems[i]); }
    case Object(_, _, props) =>
      forall i | 0 <= i < |props| ensures HasKey(props, props[i].0) && Equal(props[i].1, Prop(props, props[i].0)) {
        EqualReflexive(heap, props[i].1);
        OwnProp(props, i);
      }
      forall j | 0 <= j < |props| ensures HasKey(props, props[j].0) { OwnProp(props, j); }
    case _ =>
  }

  lemma OwnProp(props: seq<(string, Value)>, i: nat)
    requires i < |props|
    ensures HasKey(props, props[i].0)
    ensures DistinctKeys(props) ==> Prop(props, props[i].0) == props[i].1
  {
    assert HasKey(props, props[i].0);
    var j :| 0 <= j < |props| && props[j] == (props[i].0, Prop(props, props[i].0));
  }

  // ---- counting keys ----

  function Keys(props: seq<(string, Value)>): set<string> {
    set i | 0 <= i < |props| :: props[i].0
  }

  lemma {:induction false} KeysCount(props: seq<(string, Value)>)
    requires DistinctKeys(props)
    ensures |Keys(props)| == |props|
  {
    if props != [] {
      var n := |props| - 1;
      KeysCount(props[..n]);
      assert Keys(props) == Keys(props[..n]) + {props[n].0};
      assert props[n].0 !in Keys(props[..n]);
    }
  }

  lemma KeyMember(props: seq<(string, Value)>, k: string)
    ensures k in Keys(props) <==> HasKey(props, k)
  {
  }

  lemma SubsetOfSameSize(s: set<string>, t: set<string>)
    requires s <= t
    ensures s == t <==> |s| == |t|
    ensures |s| <= |t|
  {
    assert t == s + (t - s);
  }

  /** If all keys of one object are keys of the other, the two have the same keys just when they have as many. */
  lemma SameKeys(a: seq<(string, Value)>, b: seq<(string, Value)>)
    requires DistinctKeys(a) && DistinctKeys(b)
    requires forall i :: 0 <= i < |a| ==> HasKey(b, a[i].0)
    ensures |a| <= |b|
    ensures |a| == |b| <==> forall j :: 0 <= j < |b| ==> HasKey(a, b[j].0)
  {
    KeysCount(a);
    KeysCount(b);
    forall k ensures k in Keys(a) <==> HasKey(a, k) { KeyMember(a, k); }
    forall k ensures k in Keys(b) <==> HasKey(b, k) { KeyMember(b, k); }
    forall k | k in Keys(a) ensures k in Keys(b) {
      var i :| 0 <= i < |a| && a[i].0 == k;
    }
    SubsetOfSameSize(Keys(a), Keys(b));
    if Keys(a) == Keys(b) {
      forall j | 0 <= j < |b| ensures HasKey(a, b[j].0) { assert b[j].0 in Keys(b); }
    }
    if forall j :: 0 <= j < |b| ==> HasKey(a, b[j].0) {
      assert Keys(b) <= Keys(a);
    }
  }

  // ---- eq ----

  predicate ZeroNum(x: Num) {
    x == NegativeZero || x == Num(0)
  }

  /** Strict equality: one object, or one primitive value; NaN differs from itself and the two zeros do not differ. */
  predicate Identical(a: Value, b: Value) {
    if HasRef(a) then HasRef(b) && a.ref == b.ref
    else if a.Number? && b.Number? then
      a.x != NaN && (a.x == b.x || (ZeroNum(a.x) && ZeroNum(b.x)))
    else a == b
  }

  /** What lies on the stack are containers of what is being compared, so larger than it. */
  ghost predicate Enclosing(heap: map<nat, Value>, stack: seq<Value>, a: Value) {
    forall i :: 0 <= i < |stack| ==> HasRef(stack[i]) && InHeap(heap, stack[i]) && Size(stack[i]) > Size(a)
  }

  /** The same while the contents of a are being compared and a itself is on the stack. */
  ghost predicate NotSmaller(heap: map<nat, Value>, stack: seq<Value>, a: Value) {
    forall i :: 0 <= i < |stack| ==> HasRef(stack[i]) && InHeap(heap, stack[i]) && Size(stack[i]) >= Size(a)
  }

  predicate SameObject(a: Value, b: Value) {
    HasRef(a) && HasRef(b) && a.ref == b.ref
  }

  /** Nothing contains itself, so what is being compared is never found on the stack. */
  lemma NotOnStack(heap: map<nat, Value>, stack: seq<Value>, a: Value)
    requires InHeap(heap, a) && HasRef(a) && Enclosing(heap, stack, a)
    ensures forall i :: 0 <= i < |stack| ==> !SameObject(stack[i], a)
  {
  }

  class Comparison {
    var aStack: seq<Value>
    var bStack: seq<Value>

    constructor ()
      ensures aStack == [] && bStack == []
    {
      aStack, bStack := [], [];
    }

    /** The function I of the minified source. A failing comparison may leave entries on the stacks. */
    method Eq(a: Value, b: Value, ghost heap: map<nat, Value>) returns (r: bool)
      requires InHeap(heap, a) && InHeap(heap, b) && |aStack| == |bStack| && Enclosing(heap, aStack, a)
      modifies this
      ensures r <==> Equal(a, b)
      ensures |aStack| == |bStack|
      ensures r ==> aStack == old(aStack) && bStack == old(bStack)
      decreases a, 2
    {
      if Identical(a, b) {
        if HasRef(a) { EqualReflexive(heap, a); }
        return !a.Number? || !ZeroNum(a.x) || a.x == b.x;
      }
      if a.Undefined? || a.Null? || b.Undefined? || b.Null? { return false; }
      if Tag(a) != Tag(b) { return false; }
      match a {
        case Str(s) => return s == b.s;
        case Number(x) => return if x == NaN then b.x == NaN else x == b.x;
        case Date(_, t, v) => return v && b.valid && t == b.time;
        case Bool(x) => return x == b.b;
        case RegExp(_, s, f) => return s == b.source && f == b.flags;
        case _ =>
      }
      if a.Func? { return false; }
      NotOnStack(heap, aStack, a);
      var hit, answer := FindPair(a, b);
      if hit {
        r := answer;
      } else {
        r := EqContents(a, b, heap);
      }
    }

    /** Look for a on its stack, from the top; if it is there, the answer is whether b stands at the same height. */
    method FindPair(a: Value, b: Value) returns (hit: bool, answer: bool)
      requires HasRef(a) && |aStack| == |bStack|
      ensures hit <==> exists i :: 0 <= i < |aStack| && SameObject(aStack[i], a)
      ensures hit ==> exists i :: 0 <= i < |aStack| && SameObject(aStack[i], a)
                                  && (answer <==> SameObject(bStack[i], b))
    {
      var i := |aStack|;
      while i > 0
        invariant 0 <= i <= |aStack|
        invariant forall j :: i <= j < |aStack| ==> !SameObject(aStack[j], a)
      {
        i := i - 1;
        if SameObject(aStack[i], a) { return true, SameObject(bStack[i], b); }
      }
      return false, false;
    }

    /** Push both, compare the contents, pop both; a mismatch of constructors forgets to pop. */
    method EqContents(a: Value, b: Value, ghost heap: map<nat, Value>) returns (r: bool)
      requires (a.Array? && b.Array?) || (a.Object? && b.Object?)
      requires InHeap(heap, a) && InHeap(heap, b) && |aStack| == |bStack| && Enclosing(heap, aStack, a)
      modifies this
      ensures r <==> Equal(a, b)
      ensures |aStack| == |bStack|
      ensures r ==> aStack == old(aStack) && bStack == old(bStack)
      decreases a, 1
    {
      aStack, bStack := aStack + [a], bStack + [b];
      if a.Array? {
        r := EqElements(a, b, heap);
      } else {
        if a.ctor != b.ctor && !(a.ctor.selfInstance && b.ctor.selfInstance) { return false; }
        r := EqProps(a, b, heap);
      }
      Pop();
    }

    /** Drop the top of both stacks. */
    method Pop()
      modifies this
      requires |aStack| == |bStack|
      ensures |aStack| == |bStack|
      ensures |old(aStack)| > 0 ==>
                aStack == old(aStack)[..|old(aStack)| - 1] && bStack == old(bStack)[..|old(bStack)| - 1]
    {
      if |aStack| > 0 {
        aStack, bStack := aStack[..|aStack| - 1], bStack[..|bStack| - 1];
      }
    }

    /** Arrays: compare the lengths, then the elements from the last. */
    method EqElements(a: Value, b: Value, ghost heap: map<nat, Value>) returns (r: bool)
      requires a.Array? && b.Array? && InHeap(heap, a) && InHeap(heap, b) && |aStack| == |bStack|
      requires NotSmaller(heap, aStack, a)
      modifies this
      ensures r <==> Equal(a, b)
      ensures |aStack| == |bStack|
      ensures r ==> aStack == old(aStack) && bStack == old(bStack)
      decreases a, 0
    {
      var size := |a.elems|;
      r := size == |b.elems|;
      if r {
        while size > 0
          invariant 0 <= size <= |a.elems|
          invariant aStack == old(aStack) && bStack == old(bStack)
          invariant r && forall i :: size <= i < |a.elems| ==> Equal(a.elems[i], b.elems[i])
        {
          size := size - 1;
          ElementSmaller(a, 0, size);
          r := Eq(a.elems[size], b.elems[size], heap);
          if !r { return; }
        }
      }
    }

    /** Objects: count up over the keys of one, comparing values, then down over the keys of the other. */
    method EqProps(a: Value, b: Value, ghost heap: map<nat, Value>) returns (r: bool)
      requires a.Object? && b.Object? && (a.ctor == b.ctor || (a.ctor.selfInstance && b.ctor.selfInstance))
      requires InHeap(heap, a) && InHeap(heap, b) && |aStack| == |bStack|
      requires NotSmaller(heap, aStack, a)
      modifies this
      ensures r <==> Equal(a, b)
      ensures |aStack| == |bStack|
      ensures r ==> aStack == old(aStack) && bStack == old(bStack)
      decreases a, 0
    {
      var size := 0;
      while size < |a.props|
        invariant 0 <= size <= |a.props|
        invariant aStack == old(aStack) && bStack == old(bStack)
        invariant AgreeUpTo(a, b, size)
      {
        var key := a.props[size].0;
        PropSmaller(a, 0, size);
        if !HasKey(b.props, key) { return false; }
        PropInHeap(heap, b, key);
        r := Eq(a.props[size].1, Prop(b.props, key), heap);
        if !r { return; }
        size := size + 1;
      }
      AllAgree(a, b);
      r := CountDown(size, |b.props|);
    }
  }

  /** The first n properties of a are properties of b, with equal values. */
  ghost predicate AgreeUpTo(a: Value, b: Value, n: int)
    requires a.Object? && b.Object? && n <= |a.props|
  {
    forall i :: 0 <= i < n ==> HasKey(b.props, a.props[i].0) && Equal(a.props[i].1, Prop(b.props, a.props[i].0))
  }

  /** If b has all of a's properties, counting its keys decides the rest. */
  lemma AllAgree(a: Value, b: Value)
    requires a.Object? && b.Object? && (a.ctor == b.ctor || (a.ctor.selfInstance && b.ctor.selfInstance))
    requires DistinctKeys(a.props) && DistinctKeys(b.props)
    requires AgreeUpTo(a, b, |a.props|)
    ensures |a.props| <= |b.props|
    ensures Equal(a, b) <==> |a.props| == |b.props|
  {
    SameKeys(a.props, b.props);
  }

  lemma PropInHeap(heap: map<nat, Value>, b: Value, key: string)
    requires b.Object? && InHeap(heap, b) && HasKey(b.props, key)
    ensures InHeap(heap, Prop(b.props, key))
  {
    var i :| 0 <= i < |b.props| && b.props[i] == (key, Prop(b.props, key));
  }

  /** Count down over the keys of the other object, stopping at a key too many, and see whether nothing is left. */
  method CountDown(size: int, keys: nat) returns (r: bool)
    requires 0 <= size <= keys
    ensures r <==> size == keys
  {
    var left, k := size, 0;
    while k < keys
      invariant 0 <= k <= keys && left == size - k && left >= 0
    {
      var stop := left == 0;
      left := left - 1;
      if stop { break; }
      k := k + 1;
    }
    r := left == 0;
  }

  /** isEqual */
  method IsEqual(a: Value, b: Value, ghost heap: map<nat, Value>) returns (r: bool)
    requires InHeap(heap, a) && InHeap(heap, b)
    ensures r <==> Equal(a, b)
  {
    var c := new Comparison();
    r := c.Eq(a, b, heap);
  }
}
