// Reference counts: json_object nodes on a heap, who owns them, and when they are freed.

module Ownership {
  import opened Options
  import opened Chars
  import opened JsonValue
  import opened OrderedMap
  import ArrayList

  // A pointer to a node is its position on the heap, which is never used again; None is NULL.
  type Ref = nat

  datatype Kind =
    | Leaf(v: Value)
    | Arr(es: seq<Option<Ref>>)
    | Obj(ms: seq<(Text, Option<Ref>)>)

  datatype Node = Node(rc: nat, kind: Kind, freed: bool)

  type Heap = seq<Node>

  function Values(ms: seq<(Text, Option<Ref>)>): seq<Option<Ref>> {
    seq(|ms|, i requires 0 <= i < |ms| => ms[i].1)
  }

  // What a node's container slots point to
  function Kids(k: Kind): seq<Option<Ref>> {
    match k
    case Leaf(_) => []
    case Arr(es) => es
    case Obj(ms) => Values(ms)
  }

  // ---- counting

  function One(p: Option<Ref>, x: Ref): nat {
    if p == Some(x) then 1 else 0
  }

  function Times(ps: seq<Option<Ref>>, x: Ref): nat {
    if ps == [] then 0 else One(ps[0], x) + Times(ps[1..], x)
  }

  // A node without references is being deleted, or has been: its slots no longer count.
  function OwnKids(n: Node, x: Ref): nat {
    if n.rc > 0 then Times(Kids(n.kind), x) else 0
  }

  // How many container slots on the heap point to x
  function Slots(h: Heap, x: Ref): nat {
    if h == [] then 0 else OwnKids(h[0], x) + Slots(h[1..], x)
  }

  function Alive(h: Heap): nat {
    if h == [] then 0 else (if h[0].rc > 0 then 1 else 0) + Alive(h[1..])
  }

  lemma {:induction false} SlotsUpdated(h: Heap, i: nat, n: Node, x: Ref)
    requires i < |h|
    ensures Slots(h[i := n], x) + OwnKids(h[i], x) == Slots(h, x) + OwnKids(n, x)
  {
    hide OwnKids;
    if i > 0 {
      SlotsUpdated(h[1..], i - 1, n, x);
      assert h[i := n][1..] == h[1..][i - 1 := n];
    } else {
      assert h[i := n][1..] == h[1..];
    }
  }

  lemma {:induction false} AliveUpdated(h: Heap, i: nat, n: Node)
    requires i < |h|
    ensures Alive(h[i := n]) + (if h[i].rc > 0 then 1 else 0) == Alive(h) + (if n.rc > 0 then 1 else 0)
  {
    if i > 0 {
      AliveUpdated(h[1..], i - 1, n);
      assert h[i := n][1..] == h[1..][i - 1 := n];
    } else {
      assert h[i := n][1..] == h[1..];
    }
  }

  lemma {:induction false} SlotsGrown(h: Heap, n: Node, x: Ref)
    ensures Slots(h + [n], x) == Slots(h, x) + OwnKids(n, x)
  {
    hide OwnKids;
    if h == [] {
      assert h + [n] == [n];
    } else {
      SlotsGrown(h[1..], n, x);
      assert (h + [n])[1..] == h[1..] + [n];
    }
  }

  // ---- the law of conservation

  // References held outside the heap: by the caller, by the tokener, by a delete under way
  type Handles = Ref -> int

  function RcOf(h: Heap, x: Ref): nat {
    if x < |h| then h[x].rc else 0
  }

  // Every count is the number of container slots and handles there are.
  ghost predicate Balanced(h: Heap, held: Handles) {
    forall x: Ref :: held(x) >= 0 && RcOf(h, x) == Slots(h, x) + held(x)
  }

  ghost predicate Same(f: Handles, g: Handles) {
    forall x: Ref :: f(x) == g(x)
  }

  lemma SameBalance(h: Heap, f: Handles, g: Handles)
    requires Balanced(h, f) && Same(f, g)
    ensures Balanced(h, g)
  {
  }

  ghost function Plus(held: Handles, ps: seq<Option<Ref>>): Handles {
    (x: Ref) => held(x) + Times(ps, x)
  }

  ghost function Minus(held: Handles, ps: seq<Option<Ref>>): Handles {
    (x: Ref) => held(x) - Times(ps, x)
  }

  // The caller holds what ps points to, each pointer as often as it occurs.
  ghost predicate Covers(held: Handles, ps: seq<Option<Ref>>) {
    forall x: Ref :: Times(ps, x) <= held(x)
  }

  // ---- json_object_put

  // The nodes whose count has become zero are freed; the others keep all but a part of their count.
  ghost predicate Settles(h: Heap, h': Heap) {
    && |h'| == |h|
    && forall i | 0 <= i < |h| ::
         && h'[i].kind == h[i].kind && h'[i].rc <= h[i].rc
         && (h[i].rc == 0 ==> h'[i] == h[i])
         && (h[i].rc > 0 && h'[i].rc == 0 ==> h'[i].freed)
         && (h'[i].rc > 0 ==> h'[i].freed == h[i].freed)
  }

  // One reference to r is given up.  The last one deletes the node: first its children are given up,
  // then it is freed.
  ghost function PutRef(h: Heap, r: Ref, held: Handles): (h': Heap)
    requires Balanced(h, held) && held(r) > 0
    ensures Settles(h, h') && Alive(h') <= Alive(h)
    ensures Balanced(h', Minus(held, [Some(r)]))
    decreases Alive(h), 0
  {
    Counted(h, held, r);
    var n := h[r];
    var h1 := h[r := n.(rc := n.rc - 1)];
    AliveUpdated(h, r, n.(rc := n.rc - 1));
    if n.rc > 1 then
      Released(h, r, held);
      h1
    else
      var held1 := Plus(Minus(held, [Some(r)]), Kids(n.kind));
      LastReleased(h, r, held);
      var h2 := PutAll(h1, Kids(n.kind), held1);
      FreeBalance(h2, r, Minus(held1, Kids(n.kind)), Minus(held, [Some(r)]));
      AliveUpdated(h2, r, h2[r].(freed := true));
      h2[r := h2[r].(freed := true)]
  }

  // json_object_put for every pointer that is not NULL
  ghost function PutAll(h: Heap, ps: seq<Option<Ref>>, held: Handles): (h': Heap)
    requires Balanced(h, held) && Covers(held, ps)
    ensures Settles(h, h') && Alive(h') <= Alive(h)
    ensures Balanced(h', Minus(held, ps))
    decreases Alive(h), 1 + |ps|
  {
    if ps == [] then
      SameBalance(h, held, Minus(held, ps));
      h
    else if ps[0].None? then
      var h' := PutAll(h, ps[1..], held);
      SameBalance(h', Minus(held, ps[1..]), Minus(held, ps));
      h'
    else
      assert One(ps[0], ps[0].value) == 1;
      var h1 := PutRef(h, ps[0].value, held);
      var held1 := Minus(held, [ps[0]]);
      OneOf(ps);
      var h' := PutAll(h1, ps[1..], held1);
      SameBalance(h', Minus(held1, ps[1..]), Minus(held, ps));
      h'
  }

  lemma OneOf(ps: seq<Option<Ref>>)
    requires ps != []
    ensures forall x: Ref :: Times([ps[0]], x) == One(ps[0], x)
    ensures forall x: Ref :: Times(ps, x) == Times([ps[0]], x) + Times(ps[1..], x)
  {
  }

  // Who holds a node holds one with a count.
  lemma Counted(h: Heap, held: Handles, r: Ref)
    requires Balanced(h, held) && held(r) > 0
    ensures r < |h| && h[r].rc > 0
  {
    assert RcOf(h, r) == Slots(h, r) + held(r);
  }

  // The count goes down by one.
  lemma Released(h: Heap, r: Ref, held: Handles)
    requires Balanced(h, held) && r < |h| && h[r].rc > 1 && held(r) > 0
    ensures Balanced(h[r := h[r].(rc := h[r].rc - 1)], Minus(held, [Some(r)]))
  {
    var n1 := h[r].(rc := h[r].rc - 1);
    OneOf([Some(r)]);
    hide Slots, Times, Kids;
    forall x: Ref ensures RcOf(h[r := n1], x) == Slots(h[r := n1], x) + held(x) - One(Some(r), x) {
      SlotsUpdated(h, r, n1, x);
      assert RcOf(h, x) == Slots(h, x) + held(x);
    }
  }

  // At zero the node's children pass to whoever deletes it.
  lemma LastReleased(h: Heap, r: Ref, held: Handles)
    requires Balanced(h, held) && r < |h| && h[r].rc == 1 && held(r) > 0
    ensures var held1 := Plus(Minus(held, [Some(r)]), Kids(h[r].kind));
            Balanced(h[r := h[r].(rc := 0)], held1) && Covers(held1, Kids(h[r].kind))
  {
    var n1 := h[r].(rc := 0);
    OneOf([Some(r)]);
    var kids := Kids(h[r].kind);
    hide Slots, Times, Kids;
    forall x: Ref
      ensures RcOf(h[r := n1], x) == Slots(h[r := n1], x) + (held(x) - One(Some(r), x) + Times(kids, x))
    {
      SlotsUpdated(h, r, n1, x);
      assert RcOf(h, x) == Slots(h, x) + held(x);
    }
  }

  lemma FreeBalance(h: Heap, r: Ref, f: Handles, g: Handles)
    requires Balanced(h, f) && Same(f, g) && r < |h| && h[r].rc == 0
    ensures Balanced(h[r := h[r].(freed := true)], g)
  {
    forall x: Ref
      ensures g(x) >= 0
      ensures RcOf(h[r := h[r].(freed := true)], x) == Slots(h[r := h[r].(freed := true)], x) + g(x)
    {
      SlotsUpdated(h, r, h[r].(freed := true), x);
      assert RcOf(h, x) == Slots(h, x) + f(x);
      hide Slots, Times, Kids;
    }
  }

  // Between calls, a node without references is a node that has been freed.
  ghost predicate Finished(h: Heap) {
    forall i | 0 <= i < |h| :: h[i].rc == 0 <==> h[i].freed
  }

  // ---- what a delete leaves alone

  ghost predicate PointsTo(h: Heap, p: Ref, x: Ref) {
    p < |h| && h[p].rc > 0 && Times(Kids(h[p].kind), x) > 0
  }

  // The links lead upwards in some rank: there are no cycles.
  ghost predicate Ranked(h: Heap, rank: Ref -> nat) {
    forall p: Ref, x: Ref :: PointsTo(h, p, x) ==> rank(p) < rank(x)
  }

  ghost predicate Acyclic(h: Heap) {
    exists rank: Ref -> nat :: Ranked(h, rank)
  }

  lemma {:induction false} TimesOf(ps: seq<Option<Ref>>, i: nat)
    requires i < |ps| && ps[i].Some?
    ensures Times(ps, ps[i].value) > 0
  {
    if i > 0 {
      TimesOf(ps[1..], i - 1);
    }
  }

  lemma NextKid(h: Heap, ps: seq<Option<Ref>>, held: Handles)
    requires Balanced(h, held) && Covers(held, ps) && ps != []
    ensures if ps[0].None? then Covers(held, ps[1..]) && PutAll(h, ps, held) == PutAll(h, ps[1..], held)
            else
              held(ps[0].value) > 0 &&
              var h1, held1 := PutRef(h, ps[0].value, held), Minus(held, [ps[0]]);
              Balanced(h1, held1) && Covers(held1, ps[1..]) && Alive(h1) <= Alive(h) &&
              PutAll(h, ps, held) == PutAll(h1, ps[1..], held1)
  {
    OneOf(ps);
    if ps[0].Some? {
      assert One(ps[0], ps[0].value) == 1;
      assert ps[0] == Some(ps[0].value);
    }
  }

  // A part of the heap that no link leads out of
  ghost predicate Closed(h: Heap, part: Ref -> bool) {
    forall p: Ref, x: Ref :: PointsTo(h, p, x) && part(p) ==> part(x)
  }

  lemma ClosedStill(h: Heap, h': Heap, part: Ref -> bool)
    requires Closed(h, part)
    requires |h'| == |h| && forall i | 0 <= i < |h| :: h'[i].kind == h[i].kind && h'[i].rc <= h[i].rc
    ensures Closed(h', part)
  {
    forall p: Ref, x: Ref | PointsTo(h', p, x) && part(p)
      ensures part(x)
    {
      assert PointsTo(h, p, x);
    }
  }

  // Giving up a reference into such a part leaves every node outside alone.
  lemma {:induction false} PutStays(h: Heap, r: Ref, held: Handles, part: Ref -> bool, x: Ref)
    requires Balanced(h, held) && held(r) > 0 && Closed(h, part) && part(r) && x < |h| && !part(x)
    ensures PutRef(h, r, held)[x] == h[x]
    decreases Alive(h), 0
  {
    Counted(h, held, r);
    var n, kids := h[r], Kids(h[r].kind);
    if n.rc == 1 {
      var h1 := h[r := n.(rc := 0)];
      AliveUpdated(h, r, n.(rc := 0));
      LastReleased(h, r, held);
      ClosedStill(h, h1, part);
      forall i | 0 <= i < |kids| && kids[i].Some?
        ensures part(kids[i].value)
      {
        TimesOf(kids, i);
        assert PointsTo(h, r, kids[i].value);
      }
      PutAllStays(h1, kids, Plus(Minus(held, [Some(r)]), kids), part, x);
    }
  }

  lemma {:induction false} PutAllStays(h: Heap, ps: seq<Option<Ref>>, held: Handles, part: Ref -> bool, x: Ref)
    requires Balanced(h, held) && Covers(held, ps) && Closed(h, part) && x < |h| && !part(x)
    requires forall i | 0 <= i < |ps| && ps[i].Some? :: part(ps[i].value)
    ensures PutAll(h, ps, held)[x] == h[x]
    decreases Alive(h), 1 + |ps|
  {
    if ps != [] {
      NextKid(h, ps, held);
      if ps[0].None? {
        PutAllStays(h, ps[1..], held, part, x);
      } else {
        var h1 := PutRef(h, ps[0].value, held);
        PutStays(h, ps[0].value, held, part, x);
        ClosedStill(h, h1, part);
        PutAllStays(h1, ps[1..], Minus(held, [ps[0]]), part, x);
      }
    }
  }

  // ---- the other calls

  // A new scalar, or an empty container
  predicate IsBare(k: Kind) {
    Kids(k) == []
  }

  function Created(h: Heap, k: Kind): Heap {
    h + [Node(1, k, false)]
  }

  lemma NewIsBalanced(h: Heap, k: Kind, held: Handles)
    requires Balanced(h, held) && IsBare(k)
    ensures Balanced(Created(h, k), Plus(held, [Some(|h|)]))
  {
    OneOf([Some(|h|)]);
    hide Slots, Times;
    forall x: Ref ensures RcOf(Created(h, k), x) == Slots(Created(h, k), x) + (held(x) + One(Some(|h|), x)) {
      SlotsGrown(h, Node(1, k, false), x);
      NoTimes(x);
      assert RcOf(h, x) == Slots(h, x) + held(x);
    }
  }

  lemma NoTimes(x: Ref)
    ensures Times([], x) == 0
  {
  }

  // json_object_get
  function GetRef(h: Heap, r: Ref): Heap
    requires r < |h|
  {
    h[r := h[r].(rc := h[r].rc + 1)]
  }

  lemma GetIsBalanced(h: Heap, r: Ref, held: Handles)
    requires Balanced(h, held) && r < |h| && h[r].rc > 0
    ensures Balanced(GetRef(h, r), Plus(held, [Some(r)]))
  {
    OneOf([Some(r)]);
    hide Slots, Times, Kids;
    forall x: Ref ensures RcOf(GetRef(h, r), x) == Slots(GetRef(h, r), x) + (held(x) + One(Some(r), x)) {
      SlotsUpdated(h, r, h[r].(rc := h[r].rc + 1), x);
      assert RcOf(h, x) == Slots(h, x) + held(x);
    }
  }

  function WithKind(h: Heap, r: Ref, k: Kind): Heap
    requires r < |h|
  {
    h[r := h[r].(kind := k)]
  }

  // A container's slots change: what they gain was held before, and what they lose is held then.
  lemma KindIsBalanced(h: Heap, r: Ref, k: Kind, held: Handles, held': Handles)
    requires Balanced(h, held) && r < |h| && h[r].rc > 0
    requires forall x: Ref :: Times(Kids(k), x) + held'(x) == Times(Kids(h[r].kind), x) + held(x) && held'(x) >= 0
    ensures Balanced(WithKind(h, r, k), held')
  {
    hide Slots, Times, Kids;
    forall x: Ref ensures RcOf(WithKind(h, r, k), x) == Slots(WithKind(h, r, k), x) + held'(x) {
      SlotsUpdated(h, r, h[r].(kind := k), x);
      assert RcOf(h, x) == Slots(h, x) + held(x);
    }
  }

  lemma {:induction false} TimesAppended(ps: seq<Option<Ref>>, p: Option<Ref>, x: Ref)
    ensures Times(ps + [p], x) == Times(ps, x) + One(p, x)
  {
    if ps == [] {
      assert ps + [p] == [p];
    } else {
      TimesAppended(ps[1..], p, x);
      assert (ps + [p])[1..] == ps[1..] + [p];
    }
  }

  lemma {:induction false} TimesReplaced(ps: seq<Option<Ref>>, i: nat, p: Option<Ref>, x: Ref)
    requires i < |ps|
    ensures Times(ps[i := p], x) + One(ps[i], x) == Times(ps, x) + One(p, x)
  {
    if i > 0 {
      TimesReplaced(ps[1..], i - 1, p, x);
      assert ps[i := p][1..] == ps[1..][i - 1 := p];
    } else {
      assert ps[i := p][1..] == ps[1..];
    }
  }

  lemma {:induction false} TimesJoined(a: seq<Option<Ref>>, b: seq<Option<Ref>>, x: Ref)
    ensures Times(a + b, x) == Times(a, x) + Times(b, x)
  {
    if a == [] {
      assert a + b == b;
    } else {
      TimesJoined(a[1..], b, x);
      assert (a + b)[1..] == a[1..] + b;
    }
  }

  lemma {:induction false} NoneCounted(ps: seq<Option<Ref>>, x: Ref)
    requires forall i | 0 <= i < |ps| :: ps[i] == None
    ensures Times(ps, x) == 0
  {
    if ps != [] {
      NoneCounted(ps[1..], x);
    }
  }

  lemma ValuesAppended(ms: seq<(Text, Option<Ref>)>, m: (Text, Option<Ref>))
    ensures Values(ms + [m]) == Values(ms) + [m.1]
  {
  }

  lemma ValuesReplaced(ms: seq<(Text, Option<Ref>)>, i: nat, m: (Text, Option<Ref>))
    requires i < |ms|
    ensures Values(ms[i := m]) == Values(ms)[i := m.1] && Values(ms)[i] == ms[i].1
  {
  }

  // The position of a key among an object's members, or their number
  function KeyAt(ms: seq<(Text, Option<Ref>)>, key: Text): (i: nat)
    ensures i <= |ms| && (i < |ms| ==> ms[i].0 == key)
    ensures forall j | 0 <= j < i :: ms[j].0 != key
  {
    if ms == [] || ms[0].0 == key then 0 else 1 + KeyAt(ms[1..], key)
  }

  // ---- a slot that changes

  // The container with its i-th slot set to NULL, if it has that slot
  function Emptied(k: Kind, i: nat): Kind {
    if i >= |Kids(k)| || Kids(k)[i].None? then k
    else
      match k
      case Leaf(_) => k
      case Arr(es) => Arr(es[i := None])
      case Obj(ms) => Obj(ms[i := (ms[i].0, None)])
  }

  lemma EmptiedKids(k: Kind, i: nat)
    requires i < |Kids(k)|
    ensures Kids(Emptied(k, i)) == Kids(k)[i := None]
  {
  }

  // What a store leaves alone
  ghost predicate OnlyKind(h: Heap, o: Ref, k: Kind, h': Heap)
    requires o < |h|
  {
    && |h'| == |h| && h'[o].kind == k
    && (forall i | 0 <= i < |h| && i != o :: h'[i].kind == h[i].kind)
    && (forall i | 0 <= i < |h| :: h'[i].rc <= h[i].rc)
    && (Finished(h) ==> Finished(h'))
  }

  // A node outlives what its slots refer to when somebody holds it, or when there are no cycles on the heap.
  ghost predicate Outlives(h: Heap, o: Ref, held: Handles) {
    held(o) > 0 || (RcOf(h, o) > 0 && Acyclic(h))
  }

  // The reference in the i-th slot passes to whoever gives it up.
  lemma SlotEmptied(h: Heap, o: Ref, i: nat, held: Handles)
    requires Balanced(h, held) && o < |h| && h[o].rc > 0 && i < |Kids(h[o].kind)| && Kids(h[o].kind)[i].Some?
    ensures var q := Kids(h[o].kind)[i];
            Balanced(WithKind(h, o, Emptied(h[o].kind, i)), Plus(held, [q])) && Plus(held, [q])(q.value) > 0
  {
    var k, q := h[o].kind, Kids(h[o].kind)[i];
    OneOf([q]);
    EmptiedKids(k, i);
    hide Times, Kids, Emptied;
    forall x: Ref
      ensures Times(Kids(Emptied(k, i)), x) + Plus(held, [q])(x) == Times(Kids(k), x) + held(x)
      ensures Plus(held, [q])(x) >= 0
    {
      TimesReplaced(Kids(k), i, None, x);
      assert RcOf(h, x) == Slots(h, x) + held(x);
    }
    KindIsBalanced(h, o, Emptied(k, i), held, Plus(held, [q]));
    assert One(q, q.value) == 1;
  }

  // Emptying a slot makes no link.
  lemma EmptiedLinks(h: Heap, o: Ref, i: nat, p: Ref, x: Ref)
    requires o < |h| && PointsTo(WithKind(h, o, Emptied(h[o].kind, i)), p, x)
    ensures PointsTo(h, p, x)
  {
    if p == o && i < |Kids(h[o].kind)| {
      EmptiedKids(h[o].kind, i);
      TimesReplaced(Kids(h[o].kind), i, None, x);
    }
  }

  lemma GivenBack(h: Heap, held: Handles, q: Option<Ref>)
    requires q.Some? && Balanced(h, Minus(Plus(held, [q]), [Some(q.value)]))
    ensures Balanced(h, held)
  {
    SameBalance(h, Minus(Plus(held, [q]), [Some(q.value)]), held);
  }

  lemma HolderIsLeft(h: Heap, o: Ref, i: nat, held: Handles)
    requires Balanced(h, held) && o < |h| && h[o].rc > 0 && Outlives(h, o, held)
    requires i < |Kids(h[o].kind)| && Kids(h[o].kind)[i].Some?
    requires var q := Kids(h[o].kind)[i];
             Balanced(WithKind(h, o, Emptied(h[o].kind, i)), Plus(held, [q])) && Plus(held, [q])(q.value) > 0
    ensures var q := Kids(h[o].kind)[i];
            PutRef(WithKind(h, o, Emptied(h[o].kind, i)), q.value, Plus(held, [q]))[o].rc > 0
  {
    var q := Kids(h[o].kind)[i];
    var h1 := WithKind(h, o, Emptied(h[o].kind, i));
    if held(o) > 0 {
      var h2 := PutRef(h1, q.value, Plus(held, [q]));
      GivenBack(h2, held, q);
      Counted(h2, held, o);
    } else {
      var rank: Ref -> nat :| Ranked(h, rank);
      TimesOf(Kids(h[o].kind), i);
      assert PointsTo(h, o, q.value);
      var above := (x: Ref) => rank(o) < rank(x);
      forall p: Ref, x: Ref | PointsTo(h1, p, x) && above(p)
        ensures above(x)
      {
        EmptiedLinks(h, o, i, p, x);
      }
      PutStays(h1, q.value, Plus(held, [q]), above, o);
    }
  }

  // What is in the i-th slot of a container is given up.
  ghost function GiveUp(h: Heap, o: Ref, i: nat, held: Handles): (h': Heap)
    requires Balanced(h, held) && o < |h| && Outlives(h, o, held)
    ensures Balanced(h', held) && OnlyKind(h, o, Emptied(h[o].kind, i), h') && h'[o].rc > 0
  {
    assert h[o].rc > 0 by {
      if held(o) > 0 {
        Counted(h, held, o);
      }
    }
    if i >= |Kids(h[o].kind)| || Kids(h[o].kind)[i].None? then h
    else
      var q := Kids(h[o].kind)[i];
      SlotEmptied(h, o, i, held);
      var h' := PutRef(WithKind(h, o, Emptied(h[o].kind, i)), q.value, Plus(held, [q]));
      GivenBack(h', held, q);
      HolderIsLeft(h, o, i, held);
      h'
  }

  // The container gains the reference p, and has otherwise what is left in it.
  ghost predicate Takes(k: Kind, k': Kind, p: Option<Ref>) {
    forall x: Ref :: Times(Kids(k'), x) == Times(Kids(k), x) + One(p, x)
  }

  // What is in the i-th slot is given up, and then the container becomes k, which has the reference p.
  ghost function Store(h: Heap, o: Ref, i: nat, k: Kind, p: Option<Ref>, held: Handles): (h': Heap)
    requires Balanced(h, held) && o < |h| && Outlives(h, o, held) && Covers(held, [p])
    requires Takes(Emptied(h[o].kind, i), k, p)
    ensures Balanced(h', Minus(held, [p])) && OnlyKind(h, o, k, h')
  {
    var h1 := GiveUp(h, o, i, held);
    TakenOver(h1, o, k, p, held);
    WithKind(h1, o, k)
  }

  // A store in a part of the heap that no link leads out of leaves every node outside alone.
  lemma StoreStays(h: Heap, o: Ref, i: nat, k: Kind, p: Option<Ref>, held: Handles, part: Ref -> bool, x: Ref)
    requires Balanced(h, held) && o < |h| && Outlives(h, o, held) && Covers(held, [p])
    requires Takes(Emptied(h[o].kind, i), k, p)
    requires Closed(h, part) && part(o) && x < |h| && !part(x)
    ensures Store(h, o, i, k, p, held)[x] == h[x]
  {
    if held(o) > 0 {
      Counted(h, held, o);
    }
    hide Takes, Times;
    if i < |Kids(h[o].kind)| && Kids(h[o].kind)[i].Some? {
      var q, h1 := Kids(h[o].kind)[i], WithKind(h, o, Emptied(h[o].kind, i));
      SlotEmptied(h, o, i, held);
      TimesOf(Kids(h[o].kind), i);
      assert PointsTo(h, o, q.value);
      forall u: Ref, v: Ref | PointsTo(h1, u, v) && part(u)
        ensures part(v)
      {
        EmptiedLinks(h, o, i, u, v);
      }
      PutStays(h1, q.value, Plus(held, [q]), part, x);
    }
  }

  lemma TakenOver(h: Heap, o: Ref, k: Kind, p: Option<Ref>, held: Handles)
    requires Balanced(h, held) && o < |h| && h[o].rc > 0 && Covers(held, [p]) && Takes(h[o].kind, k, p)
    ensures Balanced(WithKind(h, o, k), Minus(held, [p]))
  {
    OneOf([p]);
    hide Times, Kids;
    forall x: Ref
      ensures Times(Kids(k), x) + Minus(held, [p])(x) == Times(Kids(h[o].kind), x) + held(x)
      ensures Minus(held, [p])(x) >= 0
    {
      assert Times([p], x) <= held(x);
    }
    KindIsBalanced(h, o, k, held, Minus(held, [p]));
  }

  // ---- the calls that change a slot

  // The members once p is stored for a key
  function MembersWith(ms: seq<(Text, Option<Ref>)>, key: Text, p: Option<Ref>): seq<(Text, Option<Ref>)> {
    var i := KeyAt(ms, key);
    if i < |ms| then ms[i := (key, p)] else ms + [(key, p)]
  }

  lemma MembersTake(ms: seq<(Text, Option<Ref>)>, key: Text, p: Option<Ref>)
    ensures Takes(Emptied(Obj(ms), KeyAt(ms, key)), Obj(MembersWith(ms, key, p)), p)
  {
    var i, k := KeyAt(ms, key), Obj(ms);
    if i < |ms| {
      EmptiedKids(k, i);
      ValuesReplaced(ms, i, (key, p));
    } else {
      ValuesAppended(ms, (key, p));
    }
    forall x: Ref
      ensures Times(Kids(Obj(MembersWith(ms, key, p))), x) == Times(Kids(Emptied(k, i)), x) + One(p, x)
    {
      if i < |ms| {
        TimesReplaced(Values(ms), i, None, x);
        TimesReplaced(Values(ms), i, p, x);
      } else {
        TimesAppended(Values(ms), p, x);
      }
    }
  }

  // json_object_object_add: the object takes over the caller's reference, and gives up the value
  // that was there for the key.
  ghost function AddToObject(h: Heap, o: Ref, key: Text, p: Option<Ref>, held: Handles): (h': Heap)
    requires Balanced(h, held) && o < |h| && h[o].kind.Obj? && Covers(held, [p]) && Outlives(h, o, held)
    ensures Balanced(h', Minus(held, [p]))
    ensures OnlyKind(h, o, Obj(MembersWith(h[o].kind.ms, key, p)), h')
  {
    var ms := h[o].kind.ms;
    MembersTake(ms, key, p);
    Store(h, o, KeyAt(ms, key), Obj(MembersWith(ms, key, p)), p, held)
  }

  // The members when the key is gone
  function MembersWithout(ms: seq<(Text, Option<Ref>)>, key: Text): seq<(Text, Option<Ref>)> {
    var i := KeyAt(ms, key);
    if i < |ms| then ms[..i] + ms[i + 1..] else ms
  }

  lemma MembersLose(ms: seq<(Text, Option<Ref>)>, key: Text)
    ensures Takes(Emptied(Obj(ms), KeyAt(ms, key)), Obj(MembersWithout(ms, key)), None)
  {
    var i := KeyAt(ms, key);
    if i < |ms| {
      var a, b := Values(ms[..i]), Values(ms[i + 1..]);
      hide KeyAt;
      assert Values(ms[..i] + ms[i + 1..]) == a + b;
      assert Values(ms)[i := None] == a + ([None] + b);
      EmptiedKids(Obj(ms), i);
      hide Times, Values, Emptied;
      forall x: Ref
        ensures Times(a + b, x) == Times(a + ([None] + b), x)
      {
        NoneBetween(a, b, x);
      }
    }
  }

  lemma NoneBetween(a: seq<Option<Ref>>, b: seq<Option<Ref>>, x: Ref)
    ensures Times(a + b, x) == Times(a + ([None] + b), x)
  {
    TimesJoined(a, b, x);
    TimesJoined(a, [None] + b, x);
    assert ([None] + b)[1..] == b;
  }

  // json_object_object_del: the object gives up the member and its value.
  ghost function DeleteKey(h: Heap, o: Ref, key: Text, held: Handles): (h': Heap)
    requires Balanced(h, held) && o < |h| && h[o].kind.Obj? && Outlives(h, o, held)
    ensures Balanced(h', held)
    ensures OnlyKind(h, o, Obj(MembersWithout(h[o].kind.ms, key)), h')
  {
    var ms := h[o].kind.ms;
    MembersLose(ms, key);
    OneOf([None]);
    var h' := Store(h, o, KeyAt(ms, key), Obj(MembersWithout(ms, key)), None, held);
    SameBalance(h', Minus(held, [None]), held);
    h'
  }

  lemma KeyDeleted(h: Heap, o: Ref, key: Text, held: Handles)
    requires Balanced(h, held) && o < |h| && h[o].kind.Obj? && Outlives(h, o, held)
    ensures var ms := h[o].kind.ms;
            var i := KeyAt(ms, key);
            DeleteKey(h, o, key, held) ==
              if i == |ms| then h else WithKind(GiveUp(h, o, i, held), o, Obj(ms[..i] + ms[i + 1..]))
  {
    hide KeyAt, Balanced, Outlives;
    MembersLose(h[o].kind.ms, key);
  }

  function Nulls(n: nat): (ps: seq<Option<Ref>>)
    ensures |ps| == n && forall i | 0 <= i < n :: ps[i] == None
  {
    seq(n, _ => None)
  }

  // The elements once p is stored at an index, with NULL in between
  function ElementsWith(es: seq<Option<Ref>>, idx: nat, p: Option<Ref>): seq<Option<Ref>> {
    if idx < |es| then es[idx := p] else es + Nulls(idx - |es|) + [p]
  }

  lemma ElementsTake(es: seq<Option<Ref>>, idx: nat, p: Option<Ref>)
    ensures Takes(Emptied(Arr(es), idx), Arr(ElementsWith(es, idx, p)), p)
  {
    if idx < |es| {
      EmptiedKids(Arr(es), idx);
    }
    forall x: Ref
      ensures Times(ElementsWith(es, idx, p), x) == Times(Kids(Emptied(Arr(es), idx)), x) + One(p, x)
    {
      if idx < |es| {
        TimesReplaced(es, idx, None, x);
        TimesReplaced(es, idx, p, x);
      } else {
        TimesAppended(es + Nulls(idx - |es|), p, x);
        TimesJoined(es, Nulls(idx - |es|), x);
        NoneCounted(Nulls(idx - |es|), x);
      }
    }
  }

  // json_object_array_put_idx: the array takes over the caller's reference, and gives up the element that was there.
  ghost function PutIdx(h: Heap, a: Ref, idx: nat, p: Option<Ref>, held: Handles): (h': Heap)
    requires Balanced(h, held) && a < |h| && h[a].kind.Arr? && Covers(held, [p]) && Outlives(h, a, held)
    ensures Balanced(h', Minus(held, [p]))
    ensures OnlyKind(h, a, Arr(ElementsWith(h[a].kind.es, idx, p)), h')
  {
    ElementsTake(h[a].kind.es, idx, p);
    Store(h, a, idx, Arr(ElementsWith(h[a].kind.es, idx, p)), p, held)
  }

  lemma {:induction false} KeyIsFound(ms: seq<(Text, Option<Ref>)>, key: Text)
    ensures KeyAt(ms, key) == Find(ms, key)
  {
    if ms != [] && ms[0].0 != key {
      KeyIsFound(ms[1..], key);
    }
  }

  // The slots of objects and arrays change as the ordered map and the array list do.
  lemma SlotsAgree(ms: seq<(Text, Option<Ref>)>, key: Text, es: seq<Option<Ref>>, idx: nat, p: Option<Ref>)
    ensures MembersWith(ms, key, p) == OrderedMap.Put(ms, key, p) && MembersWithout(ms, key) == Remove(ms, key)
    ensures ElementsWith(es, idx, p) == ArrayList.PutAt(es, idx, p)
  {
    KeyIsFound(ms, key);
    var with := ElementsWith(es, idx, p);
    assert |with| == |ArrayList.PutAt(es, idx, p)|;
    hide KeyAt, Find;
  }

  // json_object_array_add: the array takes over the caller's reference.
  function AddToArray(h: Heap, a: Ref, p: Option<Ref>): Heap
    requires a < |h| && h[a].kind.Arr?
  {
    WithKind(h, a, Arr(h[a].kind.es + [p]))
  }

  lemma ArrayAddIsBalanced(h: Heap, a: Ref, p: Option<Ref>, held: Handles)
    requires Balanced(h, held) && a < |h| && h[a].rc > 0 && h[a].kind.Arr? && Covers(held, [p])
    ensures Balanced(AddToArray(h, a, p), Minus(held, [p]))
  {
    ArrayTakes(h[a].kind.es, p);
    TakenOver(h, a, Arr(h[a].kind.es + [p]), p, held);
  }

  lemma ArrayTakes(es: seq<Option<Ref>>, p: Option<Ref>)
    ensures Takes(Arr(es), Arr(es + [p]), p)
  {
    forall x: Ref
      ensures Times(es + [p], x) == Times(es, x) + One(p, x)
    {
      TimesAppended(es, p, x);
    }
  }

  // ---- the calls together

  // What a program may do with the references it holds
  datatype Call =
    | CallNew(kind: Kind)
    | CallGet(r: Ref)
    | CallPut(r: Ref)
    | CallArrayAdd(a: Ref, p: Option<Ref>)
    | CallArrayPutIdx(a: Ref, idx: nat, p: Option<Ref>)
    | CallObjectAdd(o: Ref, key: Text, p: Option<Ref>)
    | CallObjectDel(o: Ref, key: Text)

  // The rules of json_object.h: a reference is given up, or handed to a container, only by its owner.  A container
  // may be changed by whoever has a pointer to it.
  ghost predicate Legal(h: Heap, held: Handles, c: Call) {
    match c
    case CallNew(kind) => IsBare(kind)
    case CallGet(r) => RcOf(h, r) > 0
    case CallPut(r) => held(r) > 0
    case CallArrayAdd(a, p) => RcOf(h, a) > 0 && h[a].kind.Arr? && Covers(held, [p])
    case CallArrayPutIdx(a, _, p) => a < |h| && h[a].kind.Arr? && Covers(held, [p]) && Outlives(h, a, held)
    case CallObjectAdd(o, _, p) => o < |h| && h[o].kind.Obj? && Covers(held, [p]) && Outlives(h, o, held)
    case CallObjectDel(o, _) => o < |h| && h[o].kind.Obj? && Outlives(h, o, held)
  }

  ghost function HeldAfter(h: Heap, held: Handles, c: Call): Handles {
    match c
    case CallNew(_) => Plus(held, [Some(|h|)])
    case CallGet(r) => Plus(held, [Some(r)])
    case CallPut(r) => Minus(held, [Some(r)])
    case CallArrayAdd(_, p) => Minus(held, [p])
    case CallArrayPutIdx(_, _, p) => Minus(held, [p])
    case CallObjectAdd(_, _, p) => Minus(held, [p])
    case CallObjectDel(_, _) => held
  }

  ghost function HeapAfter(h: Heap, held: Handles, c: Call): Heap
    requires Balanced(h, held) && Legal(h, held, c)
  {
    match c
    case CallNew(kind) => Created(h, kind)
    case CallGet(r) => GetRef(h, r)
    case CallPut(r) => PutRef(h, r, held)
    case CallArrayAdd(a, p) => AddToArray(h, a, p)
    case CallArrayPutIdx(a, idx, p) => PutIdx(h, a, idx, p, held)
    case CallObjectAdd(o, key, p) => AddToObject(h, o, key, p, held)
    case CallObjectDel(o, key) => DeleteKey(h, o, key, held)
  }

  lemma CallIsBalanced(h: Heap, held: Handles, c: Call)
    requires Balanced(h, held) && Finished(h) && Legal(h, held, c)
    ensures Balanced(HeapAfter(h, held, c), HeldAfter(h, held, c)) && Finished(HeapAfter(h, held, c))
  {
    match c
    case CallNew(kind) => NewIsBalanced(h, kind, held);
    case CallGet(r) => GetIsBalanced(h, r, held);
    case CallPut(r) =>
    case CallArrayAdd(a, p) => ArrayAddIsBalanced(h, a, p, held);
    case CallArrayPutIdx(a, idx, p) =>
    case CallObjectAdd(o, key, p) =>
    case CallObjectDel(o, key) =>
  }

  // ---- no cycles

  ghost predicate ReachesIn(h: Heap, x: Ref, y: Ref, n: nat)
    decreases n
  {
    if n == 0 then x == y else exists z: Ref :: ReachesIn(h, x, z, n - 1) && PointsTo(h, z, y)
  }

  ghost predicate Reaches(h: Heap, x: Ref, y: Ref) {
    exists n: nat :: ReachesIn(h, x, y, n)
  }

  // A container that is stored somewhere below itself
  ghost predicate ClosesCycle(h: Heap, c: Call) {
    match c
    case CallArrayAdd(a, Some(x)) => Reaches(h, x, a)
    case CallArrayPutIdx(a, _, Some(x)) => Reaches(h, x, a)
    case CallObjectAdd(o, _, Some(x)) => Reaches(h, x, o)
    case _ => false
  }

  lemma ReachesOn(h: Heap, x: Ref, y: Ref, z: Ref)
    requires Reaches(h, x, y) && PointsTo(h, y, z)
    ensures Reaches(h, x, z)
  {
    var n: nat :| ReachesIn(h, x, y, n);
    assert ReachesIn(h, x, z, n + 1);
  }

  // One more link, from o to what p points to, from where o is not reached
  lemma LinkAdded(h: Heap, h': Heap, o: Ref, p: Option<Ref>)
    requires Acyclic(h) && (p.Some? ==> !Reaches(h, p.value, o))
    requires forall u: Ref, v: Ref | PointsTo(h', u, v) :: PointsTo(h, u, v) || (u == o && p == Some(v))
    ensures Acyclic(h')
  {
    var rank: Ref -> nat :| Ranked(h, rank);
    if p.None? {
      assert Ranked(h', rank);
    } else {
      var x := p.value;
      assert ReachesIn(h, x, x, 0);
      var rank': Ref -> nat := (y: Ref) => rank(y) + if Reaches(h, x, y) then rank(o) + 1 else 0;
      forall u: Ref, v: Ref | PointsTo(h', u, v)
        ensures rank'(u) < rank'(v)
      {
        if PointsTo(h, u, v) && Reaches(h, x, u) {
          ReachesOn(h, x, u, v);
        }
      }
      assert Ranked(h', rank');
    }
  }

  lemma StoreLinks(h: Heap, h': Heap, o: Ref, i: nat, k: Kind, p: Option<Ref>, u: Ref, v: Ref)
    requires o < |h| && Takes(Emptied(h[o].kind, i), k, p) && OnlyKind(h, o, k, h') && PointsTo(h', u, v)
    ensures PointsTo(h, u, v) || (u == o && p == Some(v))
  {
    if u == o && i < |Kids(h[o].kind)| {
      EmptiedKids(h[o].kind, i);
      TimesReplaced(Kids(h[o].kind), i, None, v);
    }
  }

  // What a call may store, and where
  function Stored(c: Call): (Ref, Option<Ref>) {
    match c
    case CallArrayAdd(a, p) => (a, p)
    case CallArrayPutIdx(a, _, p) => (a, p)
    case CallObjectAdd(o, _, p) => (o, p)
    case _ => (0, None)
  }

  lemma CallLinks(h: Heap, held: Handles, c: Call, u: Ref, v: Ref)
    requires Balanced(h, held) && Legal(h, held, c) && PointsTo(HeapAfter(h, held, c), u, v)
    ensures PointsTo(h, u, v) || (u == Stored(c).0 && Stored(c).1 == Some(v))
  {
    hide Times, Takes, Emptied, Slots, Balanced;
    var h' := HeapAfter(h, held, c);
    match c
    case CallNew(kind) => NoTimes(v);
    case CallGet(r) =>
    case CallPut(r) =>
    case CallArrayAdd(a, p) => TimesAppended(h[a].kind.es, p, v);
    case CallArrayPutIdx(a, idx, p) =>
      ElementsTake(h[a].kind.es, idx, p);
      StoreLinks(h, h', a, idx, h'[a].kind, p, u, v);
    case CallObjectAdd(o, key, p) =>
      MembersTake(h[o].kind.ms, key, p);
      StoreLinks(h, h', o, KeyAt(h[o].kind.ms, key), h'[o].kind, p, u, v);
    case CallObjectDel(o, key) =>
      MembersLose(h[o].kind.ms, key);
      StoreLinks(h, h', o, KeyAt(h[o].kind.ms, key), h'[o].kind, None, u, v);
  }

  // Only a call that closes a cycle makes one.
  lemma CallIsAcyclic(h: Heap, held: Handles, c: Call)
    requires Balanced(h, held) && Legal(h, held, c) && Acyclic(h) && !ClosesCycle(h, c)
    ensures Acyclic(HeapAfter(h, held, c))
  {
    hide Times, Kids, Reaches, Ranked, Takes, Emptied, Slots;
    var h' := HeapAfter(h, held, c);
    var o, p := Stored(c).0, Stored(c).1;
    forall u: Ref, v: Ref | PointsTo(h', u, v)
      ensures PointsTo(h, u, v) || (u == o && p == Some(v))
    {
      CallLinks(h, held, c, u, v);
    }
    LinkAdded(h, h', o, p);
  }

  // ---- every run

  // A program that keeps to the rules from an empty heap on; if `tame`, it closes no cycle.  What a call does is told
  // for a balanced heap; that every heap it can be made on is balanced is what the lemma below is about.
  ghost predicate Reachable(h: Heap, held: Handles, calls: seq<Call>, tame: bool)
    decreases |calls|
  {
    if calls == [] then h == [] && forall x: Ref :: held(x) == 0
    else
      exists h0: Heap, held0: Handles ::
        Reachable(h0, held0, calls[..|calls| - 1], tame) && LastMade(h0, held0, calls, h, held, tame)
  }

  ghost predicate LastMade(h0: Heap, held0: Handles, calls: seq<Call>, h: Heap, held: Handles, tame: bool)
    requires calls != []
  {
    var c := calls[|calls| - 1];
    && (tame ==> !ClosesCycle(h0, c))
    && (Balanced(h0, held0) ==>
          Legal(h0, held0, c) && h == HeapAfter(h0, held0, c) && held == HeldAfter(h0, held0, c))
  }

  // In every state such a program can reach, each count is the number of container slots and handles.
  lemma {:induction false} ReachableIsBalanced(h: Heap, held: Handles, calls: seq<Call>, tame: bool)
    requires Reachable(h, held, calls, tame)
    ensures Balanced(h, held) && Finished(h) && (tame ==> Acyclic(h))
    decreases |calls|
  {
    if calls == [] {
      assert forall x: Ref :: Slots(h, x) == 0;
      assert Ranked(h, (x: Ref) => 0);
    } else {
      var last := calls[|calls| - 1];
      var h0: Heap, held0: Handles :|
        Reachable(h0, held0, calls[..|calls| - 1], tame) && LastMade(h0, held0, calls, h, held, tame);
      ReachableIsBalanced(h0, held0, calls[..|calls| - 1], tame);
      CallIsBalanced(h0, held0, last);
      if tame {
        CallIsAcyclic(h0, held0, last);
      }
    }
  }

  // Such a program may change every container it can get at, whether it holds it or not.
  lemma BorrowedIsLegal(h: Heap, held: Handles, calls: seq<Call>, r: Ref, key: Text, idx: nat, p: Option<Ref>)
    requires Reachable(h, held, calls, true) && RcOf(h, r) > 0 && Covers(held, [p])
    ensures h[r].kind.Obj? ==> Legal(h, held, CallObjectAdd(r, key, p)) && Legal(h, held, CallObjectDel(r, key))
    ensures h[r].kind.Arr? ==> Legal(h, held, CallArrayAdd(r, p)) && Legal(h, held, CallArrayPutIdx(r, idx, p))
  {
    ReachableIsBalanced(h, held, calls, true);
  }

  // ---- nothing held, nothing left

  lemma {:induction false} SlotHolder(h: Heap, x: Ref) returns (p: Ref)
    requires Slots(h, x) > 0
    ensures PointsTo(h, p, x)
  {
    if OwnKids(h[0], x) > 0 {
      p := 0;
    } else {
      p := SlotHolder(h[1..], x);
      assert h[1..][p] == h[p + 1];
      p := p + 1;
    }
  }

  // A part of the heap without cycles, of which nobody holds anything and into which no link leads, has no node left:
  // each has been freed.
  lemma {:induction false} PartLeft(h: Heap, held: Handles, rank: Ref -> nat, part: Ref -> bool, x: Ref)
    requires Balanced(h, held) && (forall y: Ref :: part(y) ==> held(y) == 0) && part(x)
    requires forall p: Ref, y: Ref :: PointsTo(h, p, y) && part(y) ==> part(p) && rank(p) < rank(y)
    ensures RcOf(h, x) == 0
    decreases rank(x)
  {
    assert RcOf(h, x) == Slots(h, x) + held(x);
    if Slots(h, x) > 0 {
      var p := SlotHolder(h, x);
      PartLeft(h, held, rank, part, p);
      assert false;
    }
  }

  // Without cycles, a heap nobody holds anything of has no node left.
  lemma NothingLeft(h: Heap, held: Handles, rank: Ref -> nat, x: Ref)
    requires Balanced(h, held) && (forall y: Ref :: held(y) == 0) && Ranked(h, rank)
    ensures RcOf(h, x) == 0
  {
    PartLeft(h, held, rank, (y: Ref) => true, x);
  }

  // Once a program that closes no cycle has given up all it holds, every node it has made is freed.
  lemma NothingIsLost(h: Heap, held: Handles, calls: seq<Call>, x: Ref)
    requires Reachable(h, held, calls, true) && (forall y: Ref :: held(y) == 0) && x < |h|
    ensures h[x].rc == 0 && h[x].freed
  {
    ReachableIsBalanced(h, held, calls, true);
    var rank: Ref -> nat :| Ranked(h, rank);
    NothingLeft(h, held, rank, x);
  }

  // ---- the calls as they are made

  class Objects {
    var nodes: Heap

    constructor ()
      ensures nodes == []
    {
      nodes := [];
    }

    // json_object_new, with a scalar or an empty container
    method New(kind: Kind) returns (r: Ref)
      modifies this
      ensures nodes == Created(old(nodes), kind) && r == |old(nodes)|
    {
      r := |nodes|;
      nodes := nodes + [Node(1, kind, false)];
    }

    // json_object_get
    method Get(p: Option<Ref>) returns (q: Option<Ref>)
      requires p.Some? ==> p.value < |nodes|
      modifies this
      ensures q == p
      ensures nodes == if p.Some? then GetRef(old(nodes), p.value) else old(nodes)
    {
      if p.Some? {
        nodes := nodes[p.value := nodes[p.value].(rc := nodes[p.value].rc + 1)];
      }
      return p;
    }

    // json_object_put: with the last reference the node is deleted, and before it all it refers to.
    method Put(p: Option<Ref>, ghost held: Handles) returns (deleted: bool)
      requires Balanced(nodes, held) && (p.Some? ==> held(p.value) > 0)
      modifies this
      ensures nodes == if p.Some? then PutRef(old(nodes), p.value, held) else old(nodes)
      ensures deleted <==> p.Some? && RcOf(old(nodes), p.value) == 1
      decreases Alive(nodes), 0
    {
      if p.None? {
        return false;
      }
      var r := p.value;
      Counted(nodes, held, r);
      ghost var n := nodes[r];
      AliveUpdated(nodes, r, n.(rc := n.rc - 1));
      if n.rc == 1 {
        LastReleased(nodes, r, held);
      }
      nodes := nodes[r := nodes[r].(rc := nodes[r].rc - 1)];
      if nodes[r].rc != 0 {
        return false;
      }
      PutKids(Kids(nodes[r].kind), Plus(Minus(held, [Some(r)]), Kids(n.kind)));
      nodes := nodes[r := nodes[r].(freed := true)];
      return true;
    }

    // json_object_array_add
    method ArrayAdd(a: Ref, p: Option<Ref>)
      requires a < |nodes| && nodes[a].kind.Arr?
      modifies this
      ensures nodes == AddToArray(old(nodes), a, p)
    {
      nodes := nodes[a := nodes[a].(kind := Arr(nodes[a].kind.es + [p]))];
    }

    // What is in a slot is given up before the slot gets another value.
    method GiveUpSlot(o: Ref, i: nat, ghost held: Handles)
      requires Balanced(nodes, held) && o < |nodes| && Outlives(nodes, o, held)
      modifies this
      ensures nodes == GiveUp(old(nodes), o, i, held)
    {
      if held(o) > 0 {
        Counted(nodes, held, o);
      }
      var k := nodes[o].kind;
      if i < |Kids(k)| && Kids(k)[i].Some? {
        SlotEmptied(nodes, o, i, held);
        nodes := WithKind(nodes, o, Emptied(k, i));
        var deleted := Put(Kids(k)[i], Plus(held, [Kids(k)[i]]));
      }
    }

    // json_object_object_add: the value that is replaced is given up.
    method ObjectAdd(o: Ref, key: Text, p: Option<Ref>, ghost held: Handles)
      requires Balanced(nodes, held) && o < |nodes| && nodes[o].kind.Obj? && Covers(held, [p])
      requires Outlives(nodes, o, held)
      modifies this
      ensures nodes == AddToObject(old(nodes), o, key, p, held)
    {
      var ms := nodes[o].kind.ms;
      var i := KeyAt(ms, key);
      MembersTake(ms, key, p);
      GiveUpSlot(o, i, held);
      nodes := WithKind(nodes, o, Obj(if i == |ms| then ms + [(key, p)] else ms[i := (key, p)]));
    }

    // json_object_object_del
    method ObjectDel(o: Ref, key: Text, ghost held: Handles)
      requires Balanced(nodes, held) && o < |nodes| && nodes[o].kind.Obj? && Outlives(nodes, o, held)
      modifies this
      ensures nodes == DeleteKey(old(nodes), o, key, held)
    {
      var ms := nodes[o].kind.ms;
      var i := KeyAt(ms, key);
      KeyDeleted(nodes, o, key, held);
      hide DeleteKey, KeyAt, Balanced, Outlives, GiveUp;
      if i < |ms| {
        GiveUpSlot(o, i, held);
        nodes := WithKind(nodes, o, Obj(ms[..i] + ms[i + 1..]));
      }
    }

    // json_object_array_put_idx
    method ArrayPutIdx(a: Ref, idx: nat, p: Option<Ref>, ghost held: Handles)
      requires Balanced(nodes, held) && a < |nodes| && nodes[a].kind.Arr? && Covers(held, [p])
      requires Outlives(nodes, a, held)
      modifies this
      ensures nodes == PutIdx(old(nodes), a, idx, p, held)
    {
      var es := nodes[a].kind.es;
      ElementsTake(es, idx, p);
      GiveUpSlot(a, idx, held);
      nodes := WithKind(nodes, a, Arr(if idx < |es| then es[idx := p] else es + Nulls(idx - |es|) + [p]));
    }

    // array_list_free, lh_table_free: json_object_put for each slot in its turn
    method PutKids(kids: seq<Option<Ref>>, ghost held: Handles)
      requires Balanced(nodes, held) && Covers(held, kids)
      modifies this
      ensures nodes == PutAll(old(nodes), kids, held)
      decreases Alive(nodes), 1
    {
      hide Balanced, Covers, Times, Minus;
      var i := 0;
      ghost var now := held;
      assert kids[0..] == kids;
      while i < |kids|
        invariant 0 <= i <= |kids|
        invariant Balanced(nodes, now) && Covers(now, kids[i..]) && Alive(nodes) <= old(Alive(nodes))
        invariant PutAll(nodes, kids[i..], now) == PutAll(old(nodes), kids, held)
      {
        NextKid(nodes, kids[i..], now);
        assert kids[i..][1..] == kids[i + 1..];
        if kids[i].Some? {
          var deleted := Put(kids[i], now);
          now := Minus(now, [kids[i]]);
        }
        i := i + 1;
      }
    }
  }
}
