/** jQuery's data ids: a number per node with data, taken from a list of freed numbers or from jQuery.guid, and
    given back when the node is cleaned. Cleaning may run arbitrary teardown code, which may clean again. */
module DataIds {

  type Elem = nat
  type Id = nat

  /** What code may do: write a datum, remove one, clean a node with the given teardown code, or draw a guid. */
  datatype Op = Write(n: Elem, key: string) | Remove(n: Elem, key: string) | Clean(n: Elem, teardown: seq<Op>) | NewGuid

  /** jQuery.cache, node[expando], core_deletedIds and jQuery.guid */
  datatype Books = Books(cache: map<Id, set<string>>, idOf: map<Elem, Id>, deletedIds: seq<Id>, guid: nat)

  /** Ids are injective, the cache is filled for exactly the ids in use, and the free list is without repetition,
      apart from the ids in use and below guid. */
  ghost predicate Sound(b: Books) {
    && b.guid > 0
    && (forall m, n :: m in b.idOf && n in b.idOf && m != n ==> b.idOf[m] != b.idOf[n])
    && (forall n :: n in b.idOf ==> b.idOf[n] in b.cache && 0 < b.idOf[n] < b.guid)
    && (forall id :: id in b.cache ==> exists n :: n in b.idOf && b.idOf[n] == id)
    && (forall i, j :: 0 <= i < j < |b.deletedIds| ==> b.deletedIds[i] != b.deletedIds[j])
    && (forall i :: 0 <= i < |b.deletedIds| ==> b.deletedIds[i] !in b.cache && 0 < b.deletedIds[i] < b.guid)
  }

  /** Entries and ids only went away, and exactly the ids that went away were added to the free list. */
  ghost predicate Shrunk(b: Books, b': Books) {
    && b'.cache.Keys <= b.cache.Keys
    && (forall n :: n in b'.idOf ==> n in b.idOf && b'.idOf[n] == b.idOf[n])
    && b.deletedIds <= b'.deletedIds
    && (forall id :: id in b'.deletedIds <==> id in b.deletedIds || (id in b.cache && id !in b'.cache))
  }

  // ---- what the operations come to ----

  /** A node without an id gets the last freed one, or a new one if there is none. */
  function Allocated(b: Books, n: Elem): Books {
    if n in b.idOf then b
    else
      var last := if b.deletedIds == [] then 0 else b.deletedIds[|b.deletedIds| - 1];
      b.(idOf := b.idOf[n := if last == 0 then b.guid else last],
         deletedIds := if b.deletedIds == [] then [] else b.deletedIds[..|b.deletedIds| - 1],
         guid := if last == 0 then b.guid + 1 else b.guid)
  }

  function Held(b: Books, id: Id): set<string> {
    if id in b.cache then b.cache[id] else {}
  }

  function Written(b: Books, n: Elem, key: string): (b': Books)
    ensures n in b'.idOf
  {
    var b' := Allocated(b, n);
    b'.(cache := b'.cache[b'.idOf[n] := Held(b', b'.idOf[n]) + {key}])
  }

  /** Does the node have an entry? */
  predicate HasData(b: Books, n: Elem) {
    n in b.idOf && b.idOf[n] in b.cache
  }

  /** One datum is taken out; the last one takes the entry and the id with it. */
  function Removed(b: Books, n: Elem, key: string): Books {
    if !HasData(b, n) then b
    else if b.cache[b.idOf[n]] - {key} != {} then b.(cache := b.cache[b.idOf[n] := b.cache[b.idOf[n]] - {key}])
    else Released(b, n, b.idOf[n])
  }

  /** The end of a cleanup of the node: free the id if its entry is still there. */
  function Released(b: Books, n: Elem, id: Id): Books {
    if id !in b.cache then b
    else b.(cache := b.cache - {id}, idOf := b.idOf - {n}, deletedIds := b.deletedIds + [id])
  }

  function Cleaned(b: Books, n: Elem, teardown: seq<Op>): Books
    decreases teardown, 1
  {
    if HasData(b, n) then Released(Performed(b, teardown), n, b.idOf[n]) else b
  }

  function Done(b: Books, op: Op): Books
    decreases op, 2
  {
    match op
    case Write(n, key) => Written(b, n, key)
    case Remove(n, key) => Removed(b, n, key)
    case Clean(n, teardown) => Cleaned(b, n, teardown)
    case NewGuid => b.(guid := b.guid + 1)
  }

  function Performed(b: Books, ops: seq<Op>): Books
    decreases ops, 0
  {
    if ops == [] then b else Performed(Done(b, ops[0]), ops[1..])
  }

  // ---- the single steps ----

  lemma AllocateKeeps(b: Books, n: Elem)
    requires Sound(b) && n !in b.idOf
    ensures var b' := Allocated(b, n);
            b'.idOf[n] !in b.cache && Sound(b'.(cache := b.cache[b'.idOf[n] := {}]))
  {
    var b' := Allocated(b, n);
    var id := b'.idOf[n];
    var cache' := b.cache[id := {}];
    forall x | x in cache' ensures exists k :: k in b'.idOf && b'.idOf[k] == x {
      if x == id {
        assert n in b'.idOf && b'.idOf[n] == x;
      } else {
        var k :| k in b.idOf && b.idOf[k] == x;
        assert k in b'.idOf && b'.idOf[k] == x;
      }
    }
    assert forall i :: 0 <= i < |b'.deletedIds| ==> b'.deletedIds[i] == b.deletedIds[i];
  }

  lemma RewriteKeeps(b: Books, id: Id, entry: set<string>)
    requires Sound(b) && id in b.cache
    ensures Sound(b.(cache := b.cache[id := entry]))
  {
  }

  /** Taking the last freed id, or the next guid when there is none, gives the node an id that is in use nowhere. */
  lemma WriteKeeps(b: Books, n: Elem, key: string)
    requires Sound(b)
    ensures Sound(Written(b, n, key))
    ensures n !in b.idOf ==> Allocated(b, n).idOf[n] !in b.cache
  {
    if n in b.idOf {
      RewriteKeeps(b, b.idOf[n], Held(b, b.idOf[n]) + {key});
    } else {
      WriteFresh(b, n, key);
    }
  }

  lemma WriteFresh(b: Books, n: Elem, key: string)
    requires Sound(b) && n !in b.idOf
    ensures Sound(Written(b, n, key)) && Allocated(b, n).idOf[n] !in b.cache
  {
    AllocateKeeps(b, n);
    var given := Allocated(b, n);
    var id := given.idOf[n];
    var entry := Held(given, id) + {key};
    RewriteKeeps(given.(cache := b.cache[id := {}]), id, entry);
    assert b.cache[id := {}][id := entry] == b.cache[id := entry];
  }

  /** Does releasing the id on behalf of the node take it from nobody else? */
  predicate Own(b: Books, n: Elem, id: Id) {
    id !in b.cache || (n in b.idOf && b.idOf[n] == id)
  }

  /** The release keeps the books in order exactly when the entry is gone or still belongs to the node. */
  lemma ReleaseExact(b: Books, n: Elem, id: Id)
    requires Sound(b)
    ensures Sound(Released(b, n, id)) <==> Own(b, n, id)
    ensures Own(b, n, id) ==> Shrunk(b, Released(b, n, id))
  {
    if id in b.cache {
      var m :| m in b.idOf && b.idOf[m] == id;
      if m != n {
        assert m in Released(b, n, id).idOf;
      } else {
        ReleaseOwn(b, n);
      }
    }
  }

  lemma ReleaseOwn(b: Books, n: Elem)
    requires Sound(b) && n in b.idOf
    ensures Sound(Released(b, n, b.idOf[n])) && Shrunk(b, Released(b, n, b.idOf[n]))
  {
    ReleaseOwnSound(b, n);
    var id, freed := b.idOf[n], b.deletedIds + [b.idOf[n]];
    assert freed[|b.deletedIds|] == id && forall i :: 0 <= i < |b.deletedIds| ==> freed[i] == b.deletedIds[i];
  }

  lemma ReleaseOwnSound(b: Books, n: Elem)
    requires Sound(b) && n in b.idOf
    ensures Sound(Released(b, n, b.idOf[n]))
  {
    FreedApart(b, n);
    OwnersLeft(b, n);
  }

  lemma OwnersLeft(b: Books, n: Elem)
    requires Sound(b) && n in b.idOf
    ensures var idOf' := b.idOf - {n};
            && (forall k :: k in idOf' ==> idOf'[k] in b.cache - {b.idOf[n]})
            && (forall x :: x in b.cache - {b.idOf[n]} ==> exists k :: k in idOf' && idOf'[k] == x)
  {
    var idOf' := b.idOf - {n};
    forall x | x in b.cache - {b.idOf[n]} ensures exists k :: k in idOf' && idOf'[k] == x {
      var k :| k in b.idOf && b.idOf[k] == x;
      assert k in idOf';
    }
  }

  lemma FreedApart(b: Books, n: Elem)
    requires Sound(b) && n in b.idOf
    ensures var freed := b.deletedIds + [b.idOf[n]];
            && (forall i, j :: 0 <= i < j < |freed| ==> freed[i] != freed[j])
            && (forall i :: 0 <= i < |freed| ==> freed[i] !in b.cache - {b.idOf[n]} && 0 < freed[i] < b.guid)
  {
  }

  lemma RemoveKeeps(b: Books, n: Elem, key: string)
    requires Sound(b)
    ensures Sound(Removed(b, n, key)) && Shrunk(b, Removed(b, n, key))
  {
    if HasData(b, n) { ReleaseExact(b, n, b.idOf[n]); }
  }

  lemma ShrunkTrans(a: Books, b: Books, c: Books)
    requires Shrunk(a, b) && Shrunk(b, c)
    ensures Shrunk(a, c)
  {
  }

  // ---- when a whole series is harmless ----

  /** Every release on the way finds its entry gone or its node's own; where that holds can be told by following the
      series from the present state. */
  predicate Smooth(b: Books, ops: seq<Op>)
    decreases ops, 0
  {
    ops == [] || (SmoothOp(b, ops[0]) && Smooth(Done(b, ops[0]), ops[1..]))
  }

  predicate SmoothOp(b: Books, op: Op)
    decreases op, 1
  {
    op.Clean? && HasData(b, op.n) ==> Smooth(b, op.teardown) && Own(Performed(b, op.teardown), op.n, b.idOf[op.n])
  }

  /** The books are in order at every moment of the series, also inside the teardown code. */
  ghost predicate SoundThroughout(b: Books, ops: seq<Op>)
    decreases ops, 0
  {
    Sound(b) && (ops != [] ==> SoundDuring(b, ops[0]) && SoundThroughout(Done(b, ops[0]), ops[1..]))
  }

  ghost predicate SoundDuring(b: Books, op: Op)
    decreases op, 1
  {
    op.Clean? && HasData(b, op.n) ==> SoundThroughout(b, op.teardown)
  }

  lemma {:induction false} ThroughoutToEnd(b: Books, ops: seq<Op>)
    requires SoundThroughout(b, ops)
    ensures Sound(Performed(b, ops))
    decreases |ops|
  {
    if ops != [] { ThroughoutToEnd(Done(b, ops[0]), ops[1..]); }
  }

  /** From books in order, any series of operations keeps them in order throughout exactly when it is smooth. */
  lemma {:induction false} SmoothExact(b: Books, ops: seq<Op>)
    requires Sound(b)
    ensures Smooth(b, ops) <==> SoundThroughout(b, ops)
    decreases ops, 0
  {
    if ops != [] {
      SmoothOpExact(b, ops[0]);
      if Sound(Done(b, ops[0])) { SmoothExact(Done(b, ops[0]), ops[1..]); }
    }
  }

  lemma {:induction false} SmoothOpExact(b: Books, op: Op)
    requires Sound(b)
    ensures SmoothOp(b, op) <==> SoundDuring(b, op) && Sound(Done(b, op))
    decreases op, 1
  {
    match op
    case Write(n, key) => WriteKeeps(b, n, key);
    case Remove(n, key) => RemoveKeeps(b, n, key);
    case NewGuid =>
    case Clean(n, teardown) =>
      if HasData(b, n) {
        SmoothExact(b, teardown);
        if SoundThroughout(b, teardown) {
          ThroughoutToEnd(b, teardown);
          ReleaseExact(Performed(b, teardown), n, b.idOf[n]);
        }
      }
  }

  /** For a single cleanup: after teardown that leaves the books in order, the cleanup does so exactly when the
      teardown has left the entry alone or has seen to its release. */
  lemma CleanExact(b: Books, n: Elem, teardown: seq<Op>)
    requires HasData(b, n) && Sound(Performed(b, teardown))
    ensures Sound(Cleaned(b, n, teardown)) <==> Own(Performed(b, teardown), n, b.idOf[n])
  {
    ReleaseExact(Performed(b, teardown), n, b.idOf[n]);
  }

  // ---- series that are harmless in every state ----

  /** No datum is written, at any depth. */
  predicate NoWrites(ops: seq<Op>) {
    forall op :: op in ops ==> !op.Write? && (op.Clean? ==> NoWrites(op.teardown))
  }

  /** The node is not cleaned and loses no datum, at any depth. */
  predicate Leaves(n: Elem, ops: seq<Op>) {
    forall op :: op in ops ==>
      ((op.Clean? || op.Remove?) ==> op.n != n) && (op.Clean? ==> Leaves(n, op.teardown))
  }

  /** All teardown code, at any depth, writes nothing or leaves its own node alone. */
  predicate Calm(ops: seq<Op>) {
    forall op :: op in ops && op.Clean? ==>
      Calm(op.teardown) && (NoWrites(op.teardown) || Leaves(op.n, op.teardown))
  }

  lemma {:induction false} LeavesKeeps(b: Books, n: Elem, ops: seq<Op>)
    requires Leaves(n, ops) && n in b.idOf
    ensures n in Performed(b, ops).idOf && Performed(b, ops).idOf[n] == b.idOf[n]
    decreases ops, 0
  {
    if ops != [] {
      assert ops[0] in ops;
      LeavesKeepsOne(b, n, ops[0]);
      LeavesKeeps(Done(b, ops[0]), n, ops[1..]);
    }
  }

  lemma {:induction false} LeavesKeepsOne(b: Books, n: Elem, op: Op)
    requires ((op.Clean? || op.Remove?) ==> op.n != n) && (op.Clean? ==> Leaves(n, op.teardown)) && n in b.idOf
    ensures n in Done(b, op).idOf && Done(b, op).idOf[n] == b.idOf[n]
    decreases op, 1
  {
    if op.Clean? { LeavesKeeps(b, n, op.teardown); }
  }

  lemma {:induction false} NoWritesShrinks(b: Books, ops: seq<Op>)
    requires Sound(b) && NoWrites(ops)
    ensures Sound(Performed(b, ops)) && Shrunk(b, Performed(b, ops))
    decreases ops, 0
  {
    if ops != [] {
      assert ops[0] in ops;
      NoWritesShrinksOne(b, ops[0]);
      NoWritesShrinks(Done(b, ops[0]), ops[1..]);
      ShrunkTrans(b, Done(b, ops[0]), Performed(b, ops));
    }
  }

  lemma {:induction false} NoWritesShrinksOne(b: Books, op: Op)
    requires Sound(b) && !op.Write? && (op.Clean? ==> NoWrites(op.teardown))
    ensures Sound(Done(b, op)) && Shrunk(b, Done(b, op))
    decreases op, 1
  {
    match op
    case Remove(n, key) => RemoveKeeps(b, n, key);
    case Clean(n, teardown) =>
      if HasData(b, n) {
        NoWritesShrinks(b, teardown);
        StillOwn(b, Performed(b, teardown), n);
        ReleaseExact(Performed(b, teardown), n, b.idOf[n]);
        ShrunkTrans(b, Performed(b, teardown), Done(b, op));
      }
    case NewGuid =>
  }

  /** If ids only went away, an entry that is still there belongs to whom it belonged. */
  lemma StillOwn(b: Books, b': Books, n: Elem)
    requires Sound(b) && Sound(b') && Shrunk(b, b') && HasData(b, n)
    ensures Own(b', n, b.idOf[n])
  {
    if b.idOf[n] in b'.cache {
      var m :| m in b'.idOf && b'.idOf[m] == b.idOf[n];
    }
  }

  /** Calm series are smooth in every state that is in order, and so keep it in order throughout. */
  lemma {:induction false} CalmIsSmooth(b: Books, ops: seq<Op>)
    requires Sound(b) && Calm(ops)
    ensures Smooth(b, ops) && Sound(Performed(b, ops))
    decreases ops, 0
  {
    if ops != [] {
      assert ops[0] in ops;
      CalmIsSmoothOne(b, ops[0]);
      CalmIsSmooth(Done(b, ops[0]), ops[1..]);
    }
  }

  lemma {:induction false} CalmIsSmoothOne(b: Books, op: Op)
    requires Sound(b)
    requires op.Clean? ==> Calm(op.teardown) && (NoWrites(op.teardown) || Leaves(op.n, op.teardown))
    ensures SmoothOp(b, op) && Sound(Done(b, op))
    decreases op, 1
  {
    match op
    case Write(n, key) => WriteKeeps(b, n, key);
    case Remove(n, key) => RemoveKeeps(b, n, key);
    case NewGuid =>
    case Clean(n, teardown) =>
      if HasData(b, n) {
        CalmIsSmooth(b, teardown);
        if NoWrites(teardown) {
          NoWritesShrinks(b, teardown);
          StillOwn(b, Performed(b, teardown), n);
        } else {
          LeavesKeeps(b, n, teardown);
        }
        ReleaseExact(Performed(b, teardown), n, b.idOf[n]);
      }
  }

  // ---- the data the nodes hold ----

  /** What each node with an entry holds. */
  function Contents(b: Books): map<Elem, set<string>> {
    Entries(b.idOf, b.cache)
  }

  function Entries(idOf: map<Elem, Id>, cache: map<Id, set<string>>): map<Elem, set<string>> {
    map n | n in idOf && idOf[n] in cache :: cache[idOf[n]]
  }

  predicate Holds(b: Books, n: Elem, key: string) {
    In(Contents(b), n, key)
  }

  predicate In(c: map<Elem, set<string>>, n: Elem, key: string) {
    n in c && key in c[n]
  }

  /** The other nodes' ids and data are as they were. */
  ghost predicate OthersKept(b: Books, b': Books, n: Elem) {
    && IdsKept(b.idOf, b'.idOf, n)
    && forall m, k :: m != n ==> (Holds(b', m, k) <==> Holds(b, m, k))
  }

  ghost predicate IdsKept(idOf: map<Elem, Id>, idOf': map<Elem, Id>, n: Elem) {
    idOf' - {n} == idOf - {n}
  }

  lemma EntryWritten(idOf: map<Elem, Id>, cache: map<Id, set<string>>, n: Elem, id: Id, entry: set<string>)
    requires forall m :: m in idOf && m != n ==> idOf[m] != id
    ensures Entries(idOf[n := id], cache[id := entry]) == Entries(idOf, cache)[n := entry]
  {
  }

  lemma EntryDropped(idOf: map<Elem, Id>, cache: map<Id, set<string>>, n: Elem, id: Id)
    requires forall m :: m in idOf && m != n ==> idOf[m] != id
    ensures Entries(idOf - {n}, cache - {id}) == Entries(idOf, cache) - {n}
  {
  }

  lemma WriteContents(b: Books, n: Elem, key: string)
    requires Sound(b)
    ensures Contents(Written(b, n, key))
            == Contents(b)[n := (if n in Contents(b) then Contents(b)[n] else {}) + {key}]
  {
    var id := Allocated(b, n).idOf[n];
    if n in b.idOf {
      assert b.idOf[n := id] == b.idOf;
    } else {
      AllocateKeeps(b, n);
    }
    EntryWritten(b.idOf, b.cache, n, id, Held(b, id) + {key});
  }

  lemma RemoveContents(b: Books, n: Elem, key: string)
    requires Sound(b)
    ensures var c := Contents(b);
            Contents(Removed(b, n, key))
            == if n !in c then c else if c[n] <= {key} then c - {n} else c[n := c[n] - {key}]
  {
    if HasData(b, n) {
      var id := b.idOf[n];
      var entry := b.cache[id];
      assert (entry - {key} == {}) <==> (entry <= {key});
      assert b.idOf[n := id] == b.idOf;
      EntryWritten(b.idOf, b.cache, n, id, entry - {key});
      EntryDropped(b.idOf, b.cache, n, id);
    }
  }

  lemma ReleaseContents(b: Books, n: Elem, id: Id)
    requires Sound(b) && Own(b, n, id)
    ensures Contents(Released(b, n, id)) == if id in b.cache then Contents(b) - {n} else Contents(b)
  {
    if id in b.cache { EntryDropped(b.idOf, b.cache, n, id); }
  }

  /** A write adds its datum to the node's, whether or not the node had an id, and does nothing else to the data. */
  lemma WriteHolds(b: Books, n: Elem, key: string)
    requires Sound(b)
    ensures var b' := Written(b, n, key);
            OthersKept(b, b', n) && forall k :: Holds(b', n, k) <==> Holds(b, n, k) || k == key
  {
    WriteContents(b, n, key);
    WriteIds(b, n, key);
    WrittenHolds(b, Written(b, n, key), n, key);
  }

  lemma WriteIds(b: Books, n: Elem, key: string)
    ensures IdsKept(b.idOf, Written(b, n, key).idOf, n)
  {
  }

  lemma WrittenHolds(b: Books, b': Books, n: Elem, key: string)
    requires IdsKept(b.idOf, b'.idOf, n)
    requires Contents(b') == Contents(b)[n := (if n in Contents(b) then Contents(b)[n] else {}) + {key}]
    ensures OthersKept(b, b', n) && forall k :: Holds(b', n, k) <==> Holds(b, n, k) || k == key
  {
    var c := Contents(b);
    InWritten(c, n, (if n in c then c[n] else {}) + {key});
  }

  lemma InWritten(c: map<Elem, set<string>>, n: Elem, entry: set<string>)
    ensures var c' := c[n := entry];
            forall m, k :: In(c', m, k) <==> if m == n then k in entry else In(c, m, k)
  {
  }

  lemma InDropped(c: map<Elem, set<string>>, n: Elem)
    ensures forall m, k :: In(c - {n}, m, k) <==> m != n && In(c, m, k)
  {
  }

  /** A removal takes away its datum, and the node's id when nothing else is left, and does nothing else to the data. */
  lemma RemoveHolds(b: Books, n: Elem, key: string)
    requires Sound(b)
    ensures var b' := Removed(b, n, key);
            && OthersKept(b, b', n)
            && (forall k :: Holds(b', n, k) <==> Holds(b, n, k) && k != key)
            && (n in b'.idOf <==> exists k :: Holds(b', n, k))
            && (n in b'.idOf ==> b'.idOf[n] == b.idOf[n])
  {
    RemoveContents(b, n, key);
    InRemoved(Contents(b), n, key);
    RemoveIds(b, n, key);
  }

  lemma InRemoved(c: map<Elem, set<string>>, n: Elem, key: string)
    ensures var c' := if n !in c then c else if c[n] <= {key} then c - {n} else c[n := c[n] - {key}];
            forall m, k :: In(c', m, k) <==> In(c, m, k) && !(m == n && k == key)
  {
    if n in c {
      InDropped(c, n);
      InWritten(c, n, c[n] - {key});
    }
  }

  lemma RemoveIds(b: Books, n: Elem, key: string)
    requires Sound(b)
    ensures var b' := Removed(b, n, key);
            && IdsKept(b.idOf, b'.idOf, n)
            && (n in b'.idOf <==> exists k :: Holds(b', n, k)) && (n in b'.idOf ==> b'.idOf[n] == b.idOf[n])
  {
    if HasData(b, n) && b.cache[b.idOf[n]] - {key} != {} {
      var k :| k in b.cache[b.idOf[n]] - {key};
      assert Holds(Removed(b, n, key), n, k);
    }
  }

  /** Releasing a node's own id takes all the node's data, and nobody else's. */
  lemma ReleaseHolds(b: Books, n: Elem, id: Id)
    requires Sound(b) && Own(b, n, id)
    ensures OthersKept(b, Released(b, n, id), n)
    ensures if id in b.cache then n !in Released(b, n, id).idOf else Released(b, n, id) == b
  {
    ReleaseContents(b, n, id);
    InDropped(Contents(b), n);
  }

  /** The series, at some depth, writes the datum. */
  predicate Writes(n: Elem, key: string, ops: seq<Op>) {
    exists op :: op in ops && (op == Write(n, key) || (op.Clean? && Writes(n, key, op.teardown)))
  }

  /** A smooth series leaves a node that is neither cleaned nor loses a datum all it held, and gives it only what some
      write at some depth wrote. */
  ghost predicate HoldsOn(b: Books, b': Books, n: Elem, ops: seq<Op>) {
    forall key ::
      && (Holds(b, n, key) ==> Holds(b', n, key))
      && (Holds(b', n, key) ==> Holds(b, n, key) || Writes(n, key, ops))
      && (Write(n, key) in ops ==> Holds(b', n, key))
  }

  lemma {:induction false} SmoothHolds(b: Books, n: Elem, ops: seq<Op>)
    requires Sound(b) && Smooth(b, ops) && Leaves(n, ops)
    ensures HoldsOn(b, Performed(b, ops), n, ops)
    decreases ops, 0
  {
    if ops != [] {
      var mid := Done(b, ops[0]);
      assert ops[0] in ops;
      SmoothOpExact(b, ops[0]);
      SmoothHoldsOne(b, n, ops[0]);
      SmoothHolds(mid, n, ops[1..]);
      assert ops == [ops[0]] + ops[1..];
      forall key ensures Writes(n, key, [ops[0]]) || Writes(n, key, ops[1..]) ==> Writes(n, key, ops) {
      }
    }
  }

  lemma {:induction false} SmoothHoldsOne(b: Books, n: Elem, op: Op)
    requires Sound(b) && SmoothOp(b, op) && Leaves(n, [op])
    ensures HoldsOn(b, Done(b, op), n, [op])
    decreases op, 1
  {
    assert op in [op];
    match op
    case Write(m, key) =>
      WriteHolds(b, m, key);
      assert op in [op] && op == Write(m, key);
    case Remove(m, key) => RemoveHolds(b, m, key);
    case NewGuid =>
    case Clean(m, teardown) =>
      if HasData(b, m) {
        SmoothExact(b, teardown);
        ThroughoutToEnd(b, teardown);
        SmoothHolds(b, n, teardown);
        ReleaseHolds(Performed(b, teardown), m, b.idOf[m]);
        forall key ensures Writes(n, key, teardown) ==> Writes(n, key, [op]) { }
      }
  }

  /** What a series of operations is meant to do to the data, with no ids in between. */
  function Meant(c: map<Elem, set<string>>, ops: seq<Op>): map<Elem, set<string>>
    decreases ops, 0
  {
    if ops == [] then c else Meant(MeantBy(c, ops[0]), ops[1..])
  }

  function MeantBy(c: map<Elem, set<string>>, op: Op): map<Elem, set<string>>
    decreases op, 1
  {
    match op
    case Write(n, key) => c[n := (if n in c then c[n] else {}) + {key}]
    case Remove(n, key) => if n !in c then c else if c[n] <= {key} then c - {n} else c[n := c[n] - {key}]
    case Clean(n, teardown) => if n in c then Meant(c, teardown) - {n} else c
    case NewGuid => c
  }

  /** A calm series does to the data just what it is meant to do: ids given out again never mix up two nodes. */
  lemma {:induction false} CalmContents(b: Books, ops: seq<Op>)
    requires Sound(b) && Calm(ops)
    ensures Contents(Performed(b, ops)) == Meant(Contents(b), ops)
    decreases ops, 0
  {
    if ops != [] {
      assert ops[0] in ops;
      CalmIsSmoothOne(b, ops[0]);
      CalmContentsOne(b, ops[0]);
      CalmContents(Done(b, ops[0]), ops[1..]);
    }
  }

  lemma {:induction false} CalmContentsOne(b: Books, op: Op)
    requires Sound(b)
    requires op.Clean? ==> Calm(op.teardown) && (NoWrites(op.teardown) || Leaves(op.n, op.teardown))
    ensures Contents(Done(b, op)) == MeantBy(Contents(b), op)
    decreases op, 1
  {
    match op
    case Write(n, key) => WriteContents(b, n, key);
    case Remove(n, key) => RemoveContents(b, n, key);
    case NewGuid =>
    case Clean(n, teardown) =>
      if HasData(b, n) {
        CalmContents(b, teardown);
        CleanContents(b, n, teardown, Performed(b, teardown));
      }
  }

  lemma CleanContents(b: Books, n: Elem, teardown: seq<Op>, after: Books)
    requires Sound(b) && HasData(b, n) && Calm(teardown) && (NoWrites(teardown) || Leaves(n, teardown))
    requires after == Performed(b, teardown) && Contents(after) == Meant(Contents(b), teardown)
    ensures Contents(Cleaned(b, n, teardown)) == Meant(Contents(b), teardown) - {n}
  {
    CalmOwn(b, n, teardown);
    ReleaseContents(after, n, b.idOf[n]);
    if b.idOf[n] !in after.cache { assert Contents(after) - {n} == Contents(after); }
  }

  lemma CalmOwn(b: Books, n: Elem, teardown: seq<Op>)
    requires Sound(b) && HasData(b, n) && Calm(teardown) && (NoWrites(teardown) || Leaves(n, teardown))
    ensures var b' := Performed(b, teardown);
            Sound(b') && Own(b', n, b.idOf[n]) && (b.idOf[n] !in b'.cache ==> n !in b'.idOf)
  {
    CalmIsSmooth(b, teardown);
    if NoWrites(teardown) {
      NoWritesShrinks(b, teardown);
      StillOwn(b, Performed(b, teardown), n);
    } else {
      LeavesKeeps(b, n, teardown);
    }
  }

  // ---- the store ----

  class DataStore {
    var cache: map<Id, set<string>>
    var idOf: map<Elem, Id>
    var deletedIds: seq<Id>
    var guid: nat

    ghost function State(): Books
      reads this
    {
      Books(cache, idOf, deletedIds, guid)
    }

    ghost predicate Valid()
      reads this
    {
      Sound(State())
    }

    constructor ()
      ensures Valid() && State() == Books(map[], map[], [], 1)
    {
      cache, idOf, deletedIds, guid := map[], map[], [], 1;
    }

    /** internalData with a value to store. */
    method WriteData(n: Elem, key: string)
      modifies this
      ensures State() == Written(old(State()), n, key)
      ensures old(Valid()) ==> Valid() && OthersKept(old(State()), State(), n)
      ensures old(Valid()) ==> forall k :: Holds(State(), n, k) <==> Holds(old(State()), n, k) || k == key
    {
      ghost var b := State();
      Allocate(n);
      var id := idOf[n];
      if id !in cache {
        cache := cache[id := {}];
      }
      cache := cache[id := cache[id] + {key}];
      assert cache == b.cache[id := Held(b, id) + {key}];
      if Sound(b) {
        WriteKeeps(b, n, key);
        WriteHolds(b, n, key);
      }
    }

    /** The node gets an id if it has none. */
    method Allocate(n: Elem)
      modifies `idOf, `deletedIds, `guid
      ensures State() == Allocated(old(State()), n) && n in idOf
    {
      if n !in idOf {
        var id := 0;
        if deletedIds != [] {
          id := deletedIds[|deletedIds| - 1];
          deletedIds := deletedIds[..|deletedIds| - 1];
        }
        if id == 0 {
          id := guid;
          guid := guid + 1;
        }
        idOf := idOf[n := id];
      }
    }

    /** internalRemoveData for one key: the entry goes when it is empty. */
    method RemoveData(n: Elem, key: string)
      modifies this
      ensures State() == Removed(old(State()), n, key)
      ensures old(Valid()) ==> Valid() && Shrunk(old(State()), State()) && OthersKept(old(State()), State(), n)
      ensures old(Valid()) ==> forall k :: Holds(State(), n, k) <==> Holds(old(State()), n, k) && k != key
      ensures old(Valid()) ==> (n in idOf <==> exists k :: Holds(State(), n, k))
      ensures old(Valid()) && n in idOf ==> n in old(idOf) && idOf[n] == old(idOf)[n]
    {
      ghost var b := State();
      if n in idOf && idOf[n] in cache {
        var id := idOf[n];
        cache := cache[id := cache[id] - {key}];
        assert cache - {id} == b.cache - {id};
        if cache[id] == {} {
          Release(n, id);
        }
      }
      if Sound(b) {
        RemoveKeeps(b, n, key);
        RemoveHolds(b, n, key);
      }
    }

    /** The end of cleanData for one node, after its teardown. */
    method Release(n: Elem, id: Id)
      modifies `cache, `idOf, `deletedIds
      ensures State() == Released(old(State()), n, id)
      ensures old(Valid()) ==> (Valid() <==> Own(old(State()), n, id))
    {
      if Sound(State()) { ReleaseExact(State(), n, id); }
      if id in cache {
        cache := cache - {id};
        idOf := idOf - {n};
        deletedIds := deletedIds + [id];
      }
    }

    /** cleanData for one node: run the teardown of its events, then release the id. */
    method CleanNode(n: Elem, teardown: seq<Op>)
      modifies this
      ensures State() == Cleaned(old(State()), n, teardown)
      ensures old(Valid()) && SmoothOp(old(State()), Clean(n, teardown)) ==> Valid()
      ensures old(Valid()) && Calm([Clean(n, teardown)]) ==>
                Valid() && Contents(State()) == MeantBy(old(Contents(State())), Clean(n, teardown))
      ensures old(Valid()) && SmoothOp(old(State()), Clean(n, teardown)) ==>
                forall m :: m != n && Leaves(m, teardown) ==> HoldsOn(old(State()), State(), m, [Clean(n, teardown)])
      ensures old(Valid()) && NoWrites(teardown) ==> Valid() && n !in idOf && Shrunk(old(State()), State())
      decreases teardown, 1
    {
      ghost var b := State();
      if n in idOf && idOf[n] in cache {
        var id := idOf[n];
        PerformAll(teardown);
        Release(n, id);
      }
      if Sound(b) {
        CleanMeans(b, n, teardown);
        CleanData(b, n, teardown);
      }
    }

    /** Any series of writes, removals and cleanups. */
    method PerformAll(ops: seq<Op>)
      modifies this
      ensures State() == Performed(old(State()), ops)
      ensures old(Valid()) && Smooth(old(State()), ops) ==> Valid()
      ensures old(Valid()) && Calm(ops) ==> Valid() && Contents(State()) == Meant(old(Contents(State())), ops)
      ensures old(Valid()) && Smooth(old(State()), ops) ==>
                forall n :: Leaves(n, ops) ==> HoldsOn(old(State()), State(), n, ops)
      ensures old(Valid()) && NoWrites(ops) ==> Valid() && Shrunk(old(State()), State())
      ensures forall n :: n in old(idOf) && Leaves(n, ops) ==> n in idOf && idOf[n] == old(idOf)[n]
      decreases ops, 0
    {
      ghost var b := State();
      var i := 0;
      while i < |ops|
        invariant 0 <= i <= |ops|
        invariant Performed(b, ops) == Performed(State(), ops[i..])
      {
        assert ops[i..][0] == ops[i] && ops[i..][1..] == ops[i + 1..];
        Perform(ops[i]);
        i := i + 1;
      }
      assert ops[i..] == [];
      if Sound(b) {
        SeriesMeans(b, ops);
        SeriesData(b, ops);
      }
      forall n | n in b.idOf && Leaves(n, ops) ensures n in idOf && idOf[n] == b.idOf[n] { LeavesKeeps(b, n, ops); }
    }

    method Perform(op: Op)
      modifies this
      ensures State() == Done(old(State()), op)
      decreases op, 2
    {
      match op
      case Write(n, key) => WriteData(n, key);
      case Remove(n, key) => RemoveData(n, key);
      case Clean(n, teardown) => CleanNode(n, teardown);
      case NewGuid => guid := guid + 1;
    }

    /** Teardown code that cleans its own node and then writes to another: the second node's id is also free,
        and the next node to get one shares it. */
    method SharedId(a: Elem, b: Elem, c: Elem)
      requires Valid() && a !in idOf && b !in idOf && c !in idOf && a != b && a != c && b != c
      modifies this
      ensures b in idOf && c in idOf && idOf[b] == idOf[c] && !Valid()
    {
      ghost var b0 := State();
      WriteData(a, "events");
      SharedAfter(b0, State(), a, b);
      CleanNode(a, [Clean(a, []), Write(b, "x")]);
      WriteData(c, "x");
    }
  }

  lemma CleanData(b: Books, n: Elem, teardown: seq<Op>)
    requires Sound(b)
    ensures Calm([Clean(n, teardown)]) ==>
              Contents(Cleaned(b, n, teardown)) == MeantBy(Contents(b), Clean(n, teardown))
    ensures SmoothOp(b, Clean(n, teardown)) ==>
              forall m :: m != n && Leaves(m, teardown) ==> HoldsOn(b, Cleaned(b, n, teardown), m, [Clean(n, teardown)])
  {
    var op := Clean(n, teardown);
    assert op in [op];
    if Calm([op]) { CalmContentsOne(b, op); }
    if SmoothOp(b, op) {
      forall m | m != n && Leaves(m, teardown) ensures HoldsOn(b, Cleaned(b, n, teardown), m, [op]) {
        SmoothHoldsOne(b, m, op);
      }
    }
  }

  lemma SeriesData(b: Books, ops: seq<Op>)
    requires Sound(b)
    ensures Calm(ops) ==> Contents(Performed(b, ops)) == Meant(Contents(b), ops)
    ensures Smooth(b, ops) ==> forall n :: Leaves(n, ops) ==> HoldsOn(b, Performed(b, ops), n, ops)
  {
    if Calm(ops) { CalmContents(b, ops); }
    if Smooth(b, ops) {
      forall n | Leaves(n, ops) ensures HoldsOn(b, Performed(b, ops), n, ops) { SmoothHolds(b, n, ops); }
    }
  }

  lemma CleanMeans(b: Books, n: Elem, teardown: seq<Op>)
    requires Sound(b)
    ensures SmoothOp(b, Clean(n, teardown)) ==> Sound(Cleaned(b, n, teardown))
    ensures Calm([Clean(n, teardown)]) ==> Sound(Cleaned(b, n, teardown))
    ensures NoWrites(teardown) ==>
              Sound(Cleaned(b, n, teardown)) && n !in Cleaned(b, n, teardown).idOf && Shrunk(b, Cleaned(b, n, teardown))
  {
    var op := Clean(n, teardown);
    SmoothOpExact(b, op);
    if Calm([op]) {
      assert op in [op];
      CalmIsSmoothOne(b, op);
    }
    if NoWrites(teardown) {
      NoWritesShrinksOne(b, op);
      if HasData(b, n) { NoWritesShrinks(b, teardown); }
    }
  }

  lemma SeriesMeans(b: Books, ops: seq<Op>)
    requires Sound(b)
    ensures Smooth(b, ops) ==> Sound(Performed(b, ops))
    ensures Calm(ops) ==> Sound(Performed(b, ops))
    ensures NoWrites(ops) ==> Sound(Performed(b, ops)) && Shrunk(b, Performed(b, ops))
  {
    SmoothExact(b, ops);
    if Smooth(b, ops) { ThroughoutToEnd(b, ops); }
    if Calm(ops) { CalmIsSmooth(b, ops); }
    if NoWrites(ops) { NoWritesShrinks(b, ops); }
  }

  /** What that cleanup leaves behind: the other node has the id, and the id is the next to be given out. */
  lemma SharedAfter(b0: Books, b1: Books, a: Elem, b: Elem)
    requires Sound(b0) && a !in b0.idOf && b !in b0.idOf && a != b && b1 == Written(b0, a, "events")
    ensures var b2 := Cleaned(b1, a, [Clean(a, []), Write(b, "x")]);
            var id := b1.idOf[a];
            && id > 0 && b2.idOf == (b1.idOf - {a})[b := id]
            && b2.deletedIds != [] && b2.deletedIds[|b2.deletedIds| - 1] == id
  {
    WriteKeeps(b0, a, "events");
    var id := b1.idOf[a];
    var teardown := [Clean(a, []), Write(b, "x")];
    TwoDone(b1, Clean(a, []), Write(b, "x"));
    BareClean(b1, a);
    FreedIsNext(b1, a, b);
    var after := Written(Released(b1, a, id), b, "x");
    assert Cleaned(b1, a, teardown) == Released(after, a, id);
    assert after.idOf - {a} == after.idOf;
  }

  lemma TwoDone(b: Books, first: Op, second: Op)
    ensures Performed(b, [first, second]) == Done(Done(b, first), second)
  {
    var ops, b1 := [first, second], Done(b, first);
    assert ops[1..] == [second] && [second][1..] == [];
    assert Performed(b, ops) == Performed(b1, [second]);
    assert Performed(b1, [second]) == Done(b1, second);
  }

  lemma BareClean(b: Books, n: Elem)
    requires HasData(b, n)
    ensures Done(b, Clean(n, [])) == Released(b, n, b.idOf[n])
  {
    var none: seq<Op> := [];
    assert Performed(b, none) == b;
    assert Cleaned(b, n, none) == Released(b, n, b.idOf[n]);
    assert Done(b, Clean(n, none)) == Cleaned(b, n, none);
  }

  /** The id a node has just lost is the next to be given out. */
  lemma FreedIsNext(b1: Books, a: Elem, b: Elem)
    requires HasData(b1, a) && b1.idOf[a] > 0 && b !in b1.idOf
    ensures var after := Written(Released(b1, a, b1.idOf[a]), b, "x");
            after.idOf == (b1.idOf - {a})[b := b1.idOf[a]] && b1.idOf[a] in after.cache
  {
    var inner := Released(b1, a, b1.idOf[a]);
    assert inner.deletedIds[|inner.deletedIds| - 1] == b1.idOf[a];
  }
}
