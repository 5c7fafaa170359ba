// The references a tokener holds while it parses: one per level, and one on its way to a container.

module TokenerHeap {
  import opened Options
  import opened Chars
  import opened OrderedMap
  import opened JsonValue
  import opened Numbers
  import opened Unicode
  import opened Tokener
  import opened TokenerRun
  import opened Ownership

  // ---- what a node stands for

  // From a node `base` on, every link leads to a younger node.
  ghost predicate Ordered(h: Heap, base: nat) {
    forall i, j | base <= i < |h| && 0 <= j < |Kids(h[i].kind)| && Kids(h[i].kind)[j].Some? ::
      i < Kids(h[i].kind)[j].value < |h|
  }

  // Only links to younger nodes are followed; the tokener makes no others.
  ghost function Den(h: Heap, p: Option<Ref>): Value
    decreases if p.Some? && p.value < |h| then |h| - p.value else 0
  {
    if p.None? || p.value >= |h| then JNull
    else
      match h[p.value].kind
      case Leaf(v) => v
      case Arr(es) => JArray(seq(|es|, i requires 0 <= i < |es| => DenKid(h, p.value, i)))
      case Obj(ms) => JObject(seq(|ms|, i requires 0 <= i < |ms| => (ms[i].0, DenKid(h, p.value, i))))
  }

  ghost function DenKid(h: Heap, r: Ref, i: nat): Value
    requires r < |h| && i < |Kids(h[r].kind)|
    decreases |h| - r, 0
  {
    var kid := Kids(h[r].kind)[i];
    if kid.Some? && r < kid.value < |h| then Den(h, kid) else JNull
  }

  lemma {:induction false} OwnInSlots(h: Heap, r: Ref, x: Ref)
    requires r < |h|
    ensures Slots(h, x) >= OwnKids(h[r], x)
  {
    hide OwnKids;
    if r > 0 {
      OwnInSlots(h[1..], r - 1, x);
    }
  }

  ghost predicate IsAlive(h: Heap, p: Option<Ref>) {
    p.Some? ==> RcOf(h, p.value) > 0
  }

  // The children of a live node are alive, and none of them is a node that no slot points to.
  lemma KidIsAlive(h: Heap, held: Handles, r: Ref, i: nat, x: Ref)
    requires Balanced(h, held) && RcOf(h, r) > 0 && i < |Kids(h[r].kind)| && Slots(h, x) == 0
    ensures IsAlive(h, Kids(h[r].kind)[i]) && Kids(h[r].kind)[i] != Some(x)
  {
    var kid := Kids(h[r].kind)[i];
    if kid.Some? {
      TimesOf(Kids(h[r].kind), i);
      OwnInSlots(h, r, kid.value);
      assert RcOf(h, kid.value) == Slots(h, kid.value) + held(kid.value);
    }
  }

  // Only node x, which no slot points to, has changed: nothing else stands for anything else.
  ghost predicate Apart(h: Heap, h': Heap, held: Handles, x: Ref) {
    && Balanced(h, held) && |h| <= |h'| && Slots(h, x) == 0
    && forall i | 0 <= i < |h| && i != x :: h'[i].kind == h[i].kind
  }

  lemma {:induction false} DenFrame(h: Heap, h': Heap, held: Handles, x: Ref, p: Option<Ref>)
    requires Apart(h, h', held, x) && p != Some(x) && IsAlive(h, p)
    ensures Den(h', p) == Den(h, p)
    decreases if p.Some? && p.value < |h| then |h| - p.value else 0
  {
    if p.Some? {
      var r := p.value;
      forall i | 0 <= i < |Kids(h[r].kind)| ensures DenKid(h', r, i) == DenKid(h, r, i) {
        KidIsAlive(h, held, r, i, x);
        var kid := Kids(h[r].kind)[i];
        if kid.Some? && r < kid.value {
          DenFrame(h, h', held, x, kid);
        }
      }
    }
  }

  // ---- the tokener

  // The heap, stack[0..depth].current, and the local variable obj; the heap before the parse, and who held what of it
  datatype Own = Own(h: Heap, slots: seq<Option<Ref>>, obj: Option<Ref>, base: Heap, caller: Handles)

  ghost function HeldBy(own: Own): Handles {
    (x: Ref) => Times(own.slots, x) + One(own.obj, x) + own.caller(x)
  }

  // A value the tokener makes a node for
  predicate IsFresh(v: Value) {
    match v
    case JNull => false
    case JArray(es) => es == []
    case JObject(ms) => ms == []
    case _ => true
  }

  function KindOf(v: Value): Kind {
    match v
    case JArray(_) => Arr([])
    case JObject(_) => Obj([])
    case _ => Leaf(v)
  }

  ghost predicate LeavesOk(h: Heap, base: nat) {
    forall i | base <= i < |h| && h[i].kind.Leaf? ::
      IsFresh(h[i].kind.v) && !h[i].kind.v.JArray? && !h[i].kind.v.JObject?
  }

  // Is p among the nodes made in this parse?
  ghost predicate IsNew(own: Own, p: Option<Ref>) {
    p.Some? ==> p.value >= |own.base|
  }

  // What was on the heap before is as it was, and the tokener has no reference to it.
  ghost predicate OthersKept(own: Own) {
    && |own.base| <= |own.h| && own.h[..|own.base|] == own.base
    && (forall p: Ref, x: Ref :: PointsTo(own.base, p, x) ==> x < |own.base|)
    && (forall x: Ref :: own.caller(x) >= 0 && (x >= |own.base| ==> own.caller(x) == 0))
    && (forall i | 0 <= i < |own.slots| :: IsNew(own, own.slots[i])) && IsNew(own, own.obj)
  }

  // Every new node is held just once: by its container, or by the tokener.
  ghost predicate HeapOk(own: Own) {
    && OthersKept(own) && Finished(own.h) && Balanced(own.h, HeldBy(own))
    && Ordered(own.h, |own.base|) && LeavesOk(own.h, |own.base|)
    && forall i | |own.base| <= i < |own.h| :: own.h[i].rc <= 1
  }

  // The new nodes
  ghost function NewPart(own: Own): Ref -> bool {
    (x: Ref) => x >= |own.base|
  }

  // No link leads from a new node to one that was there before, or back.
  lemma NewIsClosed(own: Own)
    requires HeapOk(own)
    ensures Closed(own.h, NewPart(own))
    ensures forall p: Ref, x: Ref :: PointsTo(own.h, p, x) && NewPart(own)(x) ==> NewPart(own)(p) && p < x
  {
    forall p: Ref, x: Ref | PointsTo(own.h, p, x)
      ensures if NewPart(own)(p) then p < x else !NewPart(own)(x)
    {
      var i := TimesAt(Kids(own.h[p].kind), x);
      if !NewPart(own)(p) {
        assert own.h[p] == own.base[p];
        assert PointsTo(own.base, p, x);
      }
    }
  }

  lemma {:induction false} TimesAt(ps: seq<Option<Ref>>, x: Ref) returns (i: nat)
    requires Times(ps, x) > 0
    ensures i < |ps| && ps[i] == Some(x)
  {
    if ps[0] == Some(x) {
      i := 0;
    } else {
      i := TimesAt(ps[1..], x);
      i := i + 1;
    }
  }

  // A level's container is older than the one above it, and than the value handed down.
  ghost predicate Rising(own: Own) {
    && (forall i, j | 0 <= i < j < |own.slots| && own.slots[i].Some? && own.slots[j].Some? ::
          own.slots[i].value < own.slots[j].value)
    && (forall i | 0 <= i < |own.slots| && own.slots[i].Some? && own.obj.Some? :: own.slots[i].value < own.obj.value)
  }

  // The containers of the levels below the current one
  ghost predicate LevelsDenote(h: Heap, slots: seq<Option<Ref>>, under: Stack) {
    match under
    case Bottom => slots == []
    case ArrayLevel(es, u) =>
      slots != [] && Den(h, slots[|slots| - 1]) == JArray(es) && LevelsDenote(h, slots[..|slots| - 1], u)
    case ObjectLevel(ms, _, u) =>
      slots != [] && Den(h, slots[|slots| - 1]) == JObject(ms) && LevelsDenote(h, slots[..|slots| - 1], u)
    case ResetLevel(_) => false
  }

  lemma {:induction false} LevelsFrame(h: Heap, h': Heap, held: Handles, x: Ref, slots: seq<Option<Ref>>, under: Stack)
    requires Apart(h, h', held, x) && LevelsDenote(h, slots, under)
    requires forall i | 0 <= i < |slots| :: IsAlive(h, slots[i]) && slots[i] != Some(x)
    ensures LevelsDenote(h', slots, under)
    decreases under
  {
    match under
    case ArrayLevel(_, u) =>
      DenFrame(h, h', held, x, slots[|slots| - 1]);
      LevelsFrame(h, h', held, x, slots[..|slots| - 1], u);
    case ObjectLevel(_, _, u) =>
      DenFrame(h, h', held, x, slots[|slots| - 1]);
      LevelsFrame(h, h', held, x, slots[..|slots| - 1], u);
    case _ =>
  }

  lemma HeldIsAlive(own: Own)
    requires HeapOk(own)
    ensures forall i | 0 <= i < |own.slots| :: IsAlive(own.h, own.slots[i])
    ensures IsAlive(own.h, own.obj)
  {
    forall i | 0 <= i < |own.slots| ensures IsAlive(own.h, own.slots[i]) {
      if own.slots[i].Some? {
        TimesOf(own.slots, i);
        Counted(own.h, HeldBy(own), own.slots[i].value);
      }
    }
    if own.obj.Some? {
      assert One(own.obj, own.obj.value) == 1;
      Counted(own.h, HeldBy(own), own.obj.value);
    }
  }

  // NULL, and only NULL, stands for null.
  lemma DenNull(own: Own, p: Option<Ref>)
    requires HeapOk(own) && IsAlive(own.h, p) && IsNew(own, p)
    ensures Den(own.h, p) == JNull <==> p.None?
  {
  }

  // No container holds what the tokener holds.
  lemma HeldIsFree(own: Own, r: Ref)
    requires HeapOk(own) && HeldBy(own)(r) > 0 && r >= |own.base|
    ensures Slots(own.h, r) == 0 && HeldBy(own)(r) == 1 && RcOf(own.h, r) == 1
  {
    Counted(own.h, HeldBy(own), r);
    assert RcOf(own.h, r) == Slots(own.h, r) + HeldBy(own)(r);
  }

  function PlaceValue(p: Place): Value {
    match p
    case Start => JNull
    case Finish(v) => v
    case Element(es, _) => JArray(es)
    case ArraySep(es) => JArray(es)
    case FieldStart(ms, _) => JObject(ms)
    case FieldEnd(ms, _) => JObject(ms)
    case ObjectValue(ms, _) => JObject(ms)
    case ObjectSep(ms) => JObject(ms)
  }

  function QuotedValue(q: Quoted): Value {
    match q
    case AsValue => JNull
    case AsKey(ms) => JObject(ms)
  }

  // What stack[depth].current stands for
  function CurrentOf(s: State): Value {
    match s
    case EatWs(p) => PlaceValue(p)
    case CommentStart(p) => PlaceValue(p)
    case Comment(p) => PlaceValue(p)
    case CommentEol(p) => PlaceValue(p)
    case CommentEnd(p) => PlaceValue(p)
    case At(p) => PlaceValue(p)
    case ArrayAdd(es, _) => JArray(es)
    case ObjectValueAdd(ms, _, _) => JObject(ms)
    case Body(q) => QuotedValue(q)
    case Escape(q) => QuotedValue(q)
    case EscapeUnicode(q, _) => QuotedValue(q)
    case _ => JNull
  }

  // What the local variable obj stands for, as long as it is used
  function HandedDown(s: State): Value {
    match s
    case ArrayAdd(_, v) => v
    case ObjectValueAdd(_, _, v) => v
    case _ => JNull
  }

  function Top(own: Own): Option<Ref>
    requires own.slots != []
  {
    own.slots[|own.slots| - 1]
  }

  function Lower(own: Own): seq<Option<Ref>>
    requires own.slots != []
  {
    own.slots[..|own.slots| - 1]
  }

  ghost predicate Stands(own: Own, current: Value, handed: Value, under: Stack) {
    && own.slots != []
    && LevelsDenote(own.h, Lower(own), under)
    && Den(own.h, Top(own)) == current
    && Den(own.h, own.obj) == handed
  }

  // The tokener's references stand for what the machine has in hand.
  ghost predicate Holds(own: Own, tok: Tok) {
    HeapOk(own) && Rising(own) && Stands(own, CurrentOf(tok.state), HandedDown(tok.state), tok.under)
  }

  // ---- current = json_object_new_...

  function WithTop(own: Own, p: Option<Ref>): seq<Option<Ref>>
    requires own.slots != []
  {
    own.slots[|own.slots| - 1 := p]
  }

  function Stored(own: Own, v: Value): Own
    requires own.slots != []
  {
    own.(h := Created(own.h, KindOf(v)), slots := WithTop(own, Some(|own.h|)))
  }

  lemma StoredKeepsOthers(own: Own, v: Value)
    requires OthersKept(own) && own.slots != []
    ensures OthersKept(Stored(own, v))
  {
    hide PointsTo;
    var own' := Stored(own, v);
    assert own'.h[..|own.base|] == own.h[..|own.base|];
  }

  lemma StoredHeap(own: Own, v: Value)
    requires HeapOk(own) && own.slots != [] && Top(own).None? && IsFresh(v)
    ensures HeapOk(Stored(own, v)) && Apart(own.h, Stored(own, v).h, HeldBy(own), |own.h|)
  {
    var own', held := Stored(own, v), HeldBy(own);
    StoredKeepsOthers(own, v);
    hide OthersKept;
    NewIsBalanced(own.h, KindOf(v), held);
    OneOf([Some(|own.h|)]);
    forall x: Ref ensures HeldBy(own')(x) == held(x) + One(Some(|own.h|), x) {
      TimesReplaced(own.slots, |own.slots| - 1, Some(|own.h|), x);
    }
    SameBalance(own'.h, Plus(held, [Some(|own.h|)]), HeldBy(own'));
    assert RcOf(own.h, |own.h|) == Slots(own.h, |own.h|) + held(|own.h|);
    hide Slots, Times;
  }

  lemma StoreKeeps(own: Own, v: Value, under: Stack)
    requires HeapOk(own) && Rising(own) && Stands(own, JNull, JNull, under) && IsFresh(v)
    ensures HeapOk(Stored(own, v)) && Rising(Stored(own, v)) && Stands(Stored(own, v), v, JNull, under)
  {
    var own', x := Stored(own, v), |own.h|;
    HeldIsAlive(own);
    DenNull(own, Top(own));
    DenNull(own, own.obj);
    StoredHeap(own, v);
    LevelsFrame(own.h, own'.h, HeldBy(own), x, Lower(own), under);
    assert Lower(own') == Lower(own);
    assert Den(own'.h, Some(x)) == v;
  }

  // ---- depth++; json_tokener_reset_level(tok, tok->depth)

  function Pushed(own: Own): Own {
    own.(slots := own.slots + [None])
  }

  lemma PushKeeps(own: Own, under: Stack, es: seq<Value>, ms: Members, key: Text)
    requires HeapOk(own) && Rising(own)
    ensures Stands(own, JArray(es), JNull, under) ==>
              HeapOk(Pushed(own)) && Rising(Pushed(own)) && Stands(Pushed(own), JNull, JNull, ArrayLevel(es, under))
    ensures Stands(own, JObject(ms), JNull, under) ==>
              && HeapOk(Pushed(own)) && Rising(Pushed(own))
              && Stands(Pushed(own), JNull, JNull, ObjectLevel(ms, key, under))
  {
    hide HeapOk, Rising, LevelsDenote;
    if HeapOk(own) {
      PushedHeap(own);
      PushedStands(own, under, es, ms, key);
    }
  }

  lemma PushedHeap(own: Own)
    requires HeapOk(own) && Rising(own)
    ensures HeapOk(Pushed(own)) && Rising(Pushed(own))
  {
    var own' := Pushed(own);
    hide Times, Slots;
    forall x: Ref ensures HeldBy(own')(x) == HeldBy(own)(x) {
      TimesAppended(own.slots, None, x);
    }
    SameBalance(own.h, HeldBy(own), HeldBy(own'));
  }

  lemma PushedStands(own: Own, under: Stack, es: seq<Value>, ms: Members, key: Text)
    ensures Stands(own, JArray(es), JNull, under) ==> Stands(Pushed(own), JNull, JNull, ArrayLevel(es, under))
    ensures Stands(own, JObject(ms), JNull, under) ==> Stands(Pushed(own), JNull, JNull, ObjectLevel(ms, key, under))
  {
    assert Lower(Pushed(own)) == own.slots;
  }

  // ---- obj = json_object_get(current); json_tokener_reset_level(tok, tok->depth); tok->depth--

  function Popped(own: Own): Own
    requires own.slots != []
  {
    own.(slots := Lower(own), obj := Top(own))
  }

  // The reference taken and the one given up cancel out.
  lemma GetThenPut(h: Heap, r: Ref, held: Handles)
    requires Balanced(h, held) && held(r) > 0
    ensures r < |h| && Balanced(GetRef(h, r), Plus(held, [Some(r)])) && Plus(held, [Some(r)])(r) > 0
    ensures PutRef(GetRef(h, r), r, Plus(held, [Some(r)])) == h
  {
    Counted(h, held, r);
    GetIsBalanced(h, r, held);
    OneOf([Some(r)]);
    assert GetRef(h, r)[r := GetRef(h, r)[r].(rc := h[r].rc)] == h;
  }

  lemma PoppedHeap(own: Own)
    requires HeapOk(own) && Rising(own) && own.slots != [] && own.obj.None?
    ensures HeapOk(Popped(own)) && Rising(Popped(own))
  {
    var own' := Popped(own);
    forall x: Ref ensures HeldBy(own')(x) == HeldBy(own)(x) {
      TimesAppended(Lower(own), Top(own), x);
      assert Lower(own) + [Top(own)] == own.slots;
    }
    SameBalance(own.h, HeldBy(own), HeldBy(own'));
  }

  lemma PopKeeps(own: Own, v: Value, under: Stack)
    requires HeapOk(own) && Rising(own) && Stands(own, v, JNull, under) && !under.Bottom?
    ensures HeapOk(Popped(own)) && Rising(Popped(own))
    ensures under.ArrayLevel? ==> Stands(Popped(own), JArray(under.es), v, under.under)
    ensures under.ObjectLevel? ==> Stands(Popped(own), JObject(under.ms), v, under.under)
    ensures !under.ResetLevel?
  {
    HeldIsAlive(own);
    DenNull(own, own.obj);
    PoppedHeap(own);
  }

  // ---- json_object_array_add(current, obj), json_object_object_add(current, obj_field_name, obj)

  // The container in hand: no container holds it, and it is not what is being added.
  lemma Container(own: Own)
    requires HeapOk(own) && Rising(own) && own.slots != [] && Top(own).Some?
    ensures var r := Top(own).value;
            && r < |own.h| && own.h[r].rc == 1 && Slots(own.h, r) == 0 && HeldBy(own)(r) == 1
            && own.obj != Some(r) && One(own.obj, r) == 0 && (own.obj.Some? ==> r < own.obj.value < |own.h|)
            && forall i | 0 <= i < |Lower(own)| :: Lower(own)[i] != Some(r)
    ensures Covers(HeldBy(own), [own.obj])
  {
    TimesOf(own.slots, |own.slots| - 1);
    HeldIsFree(own, Top(own).value);
    OneOf([own.obj]);
    HeldIsAlive(own);
    assert forall i | 0 <= i < |Lower(own)| :: Lower(own)[i] == own.slots[i];
  }

  function ElementAdded(own: Own): Own
    requires own.slots != [] && Top(own).Some? && Top(own).value < |own.h| && own.h[Top(own).value].kind.Arr?
  {
    own.(h := AddToArray(own.h, Top(own).value, own.obj), obj := None)
  }

  lemma GivenAway(own: Own, h': Heap, held: Handles)
    requires own.slots != [] && held == HeldBy(own) && Balanced(h', Minus(held, [own.obj]))
    ensures Balanced(h', HeldBy(own.(h := h', obj := None)))
  {
    OneOf([own.obj]);
    assert forall x: Ref :: Minus(held, [own.obj])(x) == Times(own.slots, x) + One(None, x) + own.caller(x);
    SameBalance(h', Minus(held, [own.obj]), HeldBy(own.(h := h', obj := None)));
  }

  lemma IsArray(own: Own, p: Option<Ref>, es: seq<Value>)
    requires HeapOk(own) && Den(own.h, p) == JArray(es) && IsNew(own, p)
    ensures p.Some? && p.value < |own.h| && own.h[p.value].kind.Arr?
    ensures |own.h[p.value].kind.es| == |es| && forall i | 0 <= i < |es| :: DenKid(own.h, p.value, i) == es[i]
  {
  }

  lemma IsObject(own: Own, p: Option<Ref>, ms: Members)
    requires HeapOk(own) && Den(own.h, p) == JObject(ms) && IsNew(own, p)
    ensures p.Some? && p.value < |own.h| && own.h[p.value].kind.Obj?
    ensures var kms := own.h[p.value].kind.ms;
            |kms| == |ms| && forall i | 0 <= i < |ms| :: kms[i].0 == ms[i].0 && DenKid(own.h, p.value, i) == ms[i].1
  {
  }

  predicate Younger(h: Heap, r: Ref, kids: seq<Option<Ref>>) {
    forall j | 0 <= j < |kids| && kids[j].Some? :: r < kids[j].value < |h|
  }

  // The value handed down has gone into the container r, which alone has other slots than before.
  lemma ContainerChanged(own: Own, own': Own, r: Ref)
    requires HeapOk(own) && Rising(own) && own'.slots == own.slots && own'.obj.None?
    requires |own.base| <= r < |own.h| == |own'.h| && own'.base == own.base && own'.caller == own.caller
    requires own'.h[..|own.base|] == own.base && Slots(own.h, r) == 0 && !own'.h[r].kind.Leaf?
    requires forall i | 0 <= i < |own.h| && i != r :: own'.h[i].kind == own.h[i].kind
    requires forall i | 0 <= i < |own.h| :: own'.h[i].rc <= own.h[i].rc
    requires Younger(own.h, r, Kids(own'.h[r].kind)) && Finished(own'.h) && Balanced(own'.h, HeldBy(own'))
    ensures HeapOk(own') && Rising(own') && Apart(own.h, own'.h, HeldBy(own), r)
  {
    hide Balanced, Slots, HeldBy;
  }

  lemma ElementAddedHeap(own: Own, es: seq<Value>, v: Value, under: Stack)
    requires HeapOk(own) && Rising(own) && Stands(own, JArray(es), v, under)
    ensures Top(own).Some? && Top(own).value < |own.h| && own.h[Top(own).value].kind.Arr?
    ensures HeapOk(ElementAdded(own)) && Rising(ElementAdded(own))
    ensures Apart(own.h, ElementAdded(own).h, HeldBy(own), Top(own).value)
  {
    hide Slots, Times, Den, LevelsDenote;
    IsArray(own, Top(own), es);
    Container(own);
    var r, held := Top(own).value, HeldBy(own);
    ArrayAddIsBalanced(own.h, r, own.obj, held);
    GivenAway(own, AddToArray(own.h, r, own.obj), held);
    ElementsYounger(own, r);
    hide Balanced;
    ContainerChanged(own, ElementAdded(own), r);
  }

  lemma ElementsYounger(own: Own, r: Ref)
    requires Ordered(own.h, |own.base|) && |own.base| <= r < |own.h| && own.h[r].kind.Arr?
    requires own.obj.Some? ==> r < own.obj.value < |own.h|
    ensures Younger(own.h, r, own.h[r].kind.es + [own.obj])
  {
    assert Kids(own.h[r].kind) == own.h[r].kind.es;
  }

  lemma AddElementKeeps(own: Own, es: seq<Value>, v: Value, under: Stack)
    requires HeapOk(own) && Rising(own) && Stands(own, JArray(es), v, under)
    ensures Top(own).Some? && Top(own).value < |own.h| && own.h[Top(own).value].kind.Arr?
    ensures HeapOk(ElementAdded(own)) && Rising(ElementAdded(own))
    ensures Stands(ElementAdded(own), JArray(es + [v]), JNull, under)
  {
    ElementAddedHeap(own, es, v, under);
    var own', r, held := ElementAdded(own), Top(own).value, HeldBy(own);
    IsArray(own, Top(own), es);
    Container(own);
    HeldIsAlive(own);
    LevelsFrame(own.h, own'.h, held, r, Lower(own), under);
    assert Lower(own') == Lower(own);
    ElementsDenote(own, own'.h, es, v);
  }

  lemma ElementsDenote(own: Own, h': Heap, es: seq<Value>, v: Value)
    requires HeapOk(own) && Rising(own) && own.slots != []
    requires Den(own.h, Top(own)) == JArray(es) && Den(own.h, own.obj) == v
    requires Top(own).Some? && Top(own).value < |own.h| && own.h[Top(own).value].kind.Arr?
    requires h' == AddToArray(own.h, Top(own).value, own.obj)
    requires Apart(own.h, h', HeldBy(own), Top(own).value)
    ensures Den(h', Top(own)) == JArray(es + [v])
  {
    var r, held := Top(own).value, HeldBy(own);
    IsArray(own, Top(own), es);
    Container(own);
    HeldIsAlive(own);
    DenFrame(own.h, h', held, r, own.obj);
    hide HeapOk, Rising, Balanced, Slots, Times, Apart;
    forall i | 0 <= i < |es| + 1
      ensures DenKid(h', r, i) == (es + [v])[i]
    {
      if i < |es| {
        KidIsAlive(own.h, held, r, i, r);
        DenFrame(own.h, h', held, r, own.h[r].kind.es[i]);
      }
    }
  }

  ghost function MemberAdded(own: Own, key: Text): Own
    requires HeapOk(own) && Rising(own) && own.slots != []
    requires Top(own).Some? && Top(own).value < |own.h| && own.h[Top(own).value].kind.Obj?
  {
    Container(own);
    own.(h := AddToObject(own.h, Top(own).value, key, own.obj, HeldBy(own)), obj := None)
  }

  lemma {:induction false} SameKey(kms: seq<(Text, Option<Ref>)>, ms: Members, key: Text)
    requires |kms| == |ms| && forall i | 0 <= i < |ms| :: kms[i].0 == ms[i].0
    ensures KeyAt(kms, key) == Find(ms, key)
  {
    if ms != [] && ms[0].0 != key {
      SameKey(kms[1..], ms[1..], key);
    }
  }

  lemma MembersYounger(own: Own, r: Ref, key: Text)
    requires Ordered(own.h, |own.base|) && |own.base| <= r < |own.h| && own.h[r].kind.Obj?
    requires own.obj.Some? ==> r < own.obj.value < |own.h|
    ensures Younger(own.h, r, Values(MembersWith(own.h[r].kind.ms, key, own.obj)))
  {
    var ms := own.h[r].kind.ms;
    assert forall i | 0 <= i < |ms| :: ms[i].1 == Kids(own.h[r].kind)[i];
  }

  // The value that is given up for a repeated key is a new node, and so is all below it.
  lemma OthersStay(own: Own, key: Text)
    requires HeapOk(own) && Rising(own) && own.slots != []
    requires Top(own).Some? && Top(own).value < |own.h| && own.h[Top(own).value].kind.Obj?
    ensures HeldBy(own)(Top(own).value) > 0 && Covers(HeldBy(own), [own.obj])
    ensures AddToObject(own.h, Top(own).value, key, own.obj, HeldBy(own))[..|own.base|] == own.base
  {
    Container(own);
    NewIsClosed(own);
    var r, held := Top(own).value, HeldBy(own);
    var ms := own.h[r].kind.ms;
    MembersTake(ms, key, own.obj);
    hide HeapOk, Closed, Takes, Store, Balanced;
    forall x: Ref | x < |own.base|
      ensures AddToObject(own.h, r, key, own.obj, held)[x] == own.base[x]
    {
      StoreStays(own.h, r, KeyAt(ms, key), Obj(MembersWith(ms, key, own.obj)), own.obj, held, NewPart(own), x);
      assert own.h[..|own.base|][x] == own.h[x];
    }
  }

  lemma MemberAddedHeap(own: Own, key: Text, ms: Members, v: Value, under: Stack)
    requires HeapOk(own) && Rising(own) && Stands(own, JObject(ms), v, under)
    ensures Top(own).Some? && Top(own).value < |own.h| && own.h[Top(own).value].kind.Obj?
    ensures HeapOk(MemberAdded(own, key)) && Rising(MemberAdded(own, key))
    ensures Apart(own.h, MemberAdded(own, key).h, HeldBy(own), Top(own).value)
    ensures MemberAdded(own, key).h[Top(own).value].kind ==
            Obj(MembersWith(own.h[Top(own).value].kind.ms, key, own.obj))
  {
    hide Slots, Times, Den, LevelsDenote, AddToObject, MembersWith;
    IsObject(own, Top(own), ms);
    Container(own);
    var r, held := Top(own).value, HeldBy(own);
    var h' := AddToObject(own.h, r, key, own.obj, held);
    OthersStay(own, key);
    GivenAway(own, h', held);
    MembersYounger(own, r, key);
    assert Kids(h'[r].kind) == Values(MembersWith(own.h[r].kind.ms, key, own.obj));
    hide Balanced;
    ContainerChanged(own, MemberAdded(own, key), r);
  }

  lemma AddMemberKeeps(own: Own, key: Text, ms: Members, v: Value, under: Stack)
    requires HeapOk(own) && Rising(own) && Stands(own, JObject(ms), v, under)
    ensures Top(own).Some? && Top(own).value < |own.h| && own.h[Top(own).value].kind.Obj?
    ensures HeapOk(MemberAdded(own, key)) && Rising(MemberAdded(own, key))
    ensures Stands(MemberAdded(own, key), JObject(Put(ms, key, v)), JNull, under)
  {
    MemberAddedHeap(own, key, ms, v, under);
    var own' := MemberAdded(own, key);
    assert own'.slots == own.slots && own'.obj == None && own'.base == own.base;
    hide MemberAdded, AddToObject, MembersWith, Rising, Stands;
    MembersStand(own, own', key, ms, v, under);
  }

  lemma MembersStand(own: Own, own': Own, key: Text, ms: Members, v: Value, under: Stack)
    requires HeapOk(own) && Rising(own) && Stands(own, JObject(ms), v, under)
    requires Top(own).Some? && Top(own).value < |own.h| && own.h[Top(own).value].kind.Obj?
    requires HeapOk(own') && own'.slots == own.slots && own'.obj == None && own'.base == own.base
    requires Apart(own.h, own'.h, HeldBy(own), Top(own).value)
    requires own'.h[Top(own).value].kind == Obj(MembersWith(own.h[Top(own).value].kind.ms, key, own.obj))
    ensures Stands(own', JObject(Put(ms, key, v)), JNull, under)
  {
    var r, held := Top(own).value, HeldBy(own);
    assert IsNew(own, Top(own)) && Ordered(own'.h, |own.base|) && Lower(own') == Lower(own);
    hide MembersWith, OthersKept, Balanced, Slots, Times, LeavesOk;
    Container(own);
    HeldIsAlive(own);
    LevelsFrame(own.h, own'.h, held, r, Lower(own), under);
    MemberValues(own, own'.h, key, ms, v);
  }

  // The slots that were there, in the new heap
  lemma MembersStill(own: Own, h': Heap, ms: Members)
    requires HeapOk(own) && Rising(own) && own.slots != [] && Den(own.h, Top(own)) == JObject(ms)
    requires Top(own).Some? && Top(own).value < |own.h| && own.h[Top(own).value].kind.Obj?
    requires Apart(own.h, h', HeldBy(own), Top(own).value)
    ensures var kms := own.h[Top(own).value].kind.ms;
            && |kms| == |ms| && (forall i | 0 <= i < |ms| :: kms[i].0 == ms[i].0)
            && (forall i | 0 <= i < |ms| :: Den(h', kms[i].1) == ms[i].1)
    ensures Den(h', own.obj) == Den(own.h, own.obj)
  {
    var r, held := Top(own).value, HeldBy(own);
    IsObject(own, Top(own), ms);
    Container(own);
    HeldIsAlive(own);
    hide HeapOk, Rising, IsAlive, Den;
    DenFrame(own.h, h', held, r, own.obj);
    var kms := own.h[r].kind.ms;
    forall i | 0 <= i < |kms| ensures Den(h', kms[i].1) == ms[i].1 {
      KidIsAlive(own.h, held, r, i, r);
      assert Kids(own.h[r].kind)[i] == kms[i].1;
      DenFrame(own.h, h', held, r, kms[i].1);
    }
  }

  lemma MemberValues(own: Own, h': Heap, key: Text, ms: Members, v: Value)
    requires HeapOk(own) && Rising(own) && own.slots != []
    requires Den(own.h, Top(own)) == JObject(ms) && Den(own.h, own.obj) == v
    requires Top(own).Some? && Top(own).value < |own.h| && own.h[Top(own).value].kind.Obj?
    requires Apart(own.h, h', HeldBy(own), Top(own).value)
    requires h'[Top(own).value].kind == Obj(MembersWith(own.h[Top(own).value].kind.ms, key, own.obj))
    requires Younger(h', Top(own).value, Kids(h'[Top(own).value].kind))
    ensures Den(h', Top(own)) == JObject(Put(ms, key, v))
  {
    hide HeapOk, Rising;
    MembersStill(own, h', ms);
    var r := Top(own).value;
    MembersDenote(h', r, own.h[r].kind.ms, ms, key, own.obj, v);
  }

  lemma MembersDenote(h: Heap, r: Ref, kms: seq<(Text, Option<Ref>)>, ms: Members, key: Text, p: Option<Ref>, v: Value)
    requires r < |h| && h[r].kind == Obj(MembersWith(kms, key, p))
    requires Younger(h, r, Kids(h[r].kind))
    requires |kms| == |ms| && forall i | 0 <= i < |ms| :: kms[i].0 == ms[i].0
    requires (forall i | 0 <= i < |ms| :: Den(h, kms[i].1) == ms[i].1) && Den(h, p) == v
    ensures Den(h, Some(r)) == JObject(Put(ms, key, v))
  {
    SameKey(kms, ms, key);
    forall i | 0 <= i < |MembersWith(kms, key, p)|
      ensures (MembersWith(kms, key, p)[i].0, DenKid(h, r, i)) == Put(ms, key, v)[i]
    {
      assert Kids(h[r].kind)[i] == MembersWith(kms, key, p)[i].1;
    }
  }

  // ---- what a step of the machine does to the level in hand

  // Nothing, or a new value where there was none
  predicate Plain(tok: Tok, k: Tok) {
    && k.under == tok.under && HandedDown(k.state) == JNull
    && (CurrentOf(k.state) == CurrentOf(tok.state) || (CurrentOf(tok.state) == JNull && IsFresh(CurrentOf(k.state))))
  }

  predicate Deeper(tok: Tok, k: Tok) {
    CurrentOf(k.state) == JNull && HandedDown(k.state) == JNull &&
    match CurrentOf(tok.state)
    case JArray(es) => k.under == ArrayLevel(es, tok.under)
    case JObject(ms) => k.under.ObjectLevel? && k.under.ms == ms && k.under.under == tok.under
    case _ => false
  }

  predicate Back(tok: Tok, k: Tok) {
    tok.state.At? && tok.state.here.Finish? &&
    match tok.under
    case ArrayLevel(es, under) => k.state == ArrayAdd(es, tok.state.here.v) && k.under == under
    case ObjectLevel(ms, key, under) => k.state == ObjectValueAdd(ms, key, tok.state.here.v) && k.under == under
    case _ => false
  }

  predicate Added(tok: Tok, k: Tok) {
    k.under == tok.under && HandedDown(k.state) == JNull &&
    match tok.state
    case ArrayAdd(es, v) => CurrentOf(k.state) == JArray(es + [v])
    case ObjectValueAdd(ms, key, v) => CurrentOf(k.state) == JObject(Put(ms, key, v))
    case _ => false
  }

  predicate Shape(tok: Tok, k: Tok) {
    if tok.state.ArrayAdd? || tok.state.ObjectValueAdd? then Added(tok, k)
    else HandedDown(tok.state) == JNull && (Plain(tok, k) || Deeper(tok, k) || Back(tok, k))
  }

  lemma WordShape(env: Env, tok: Tok, buf: Text, word0: Text, v0: Value, word1: Text, v1: Value, err: Error)
    requires CurrentOf(tok.state) == JNull && HandedDown(tok.state) == JNull
    requires (v0 == JNull || IsFresh(v0)) && (v1 == JNull || IsFresh(v1))
    ensures Plain(tok, StepWord(env, tok, buf, word0, v0, word1, v1, err).tok)
  {
    hide MoveInWord;
    match MoveInWord(env.strict, buf, tok.stPos, word0, word1)
    case First =>
    case Second =>
    case More =>
    case Wrong =>
  }

  lemma KeywordShape(env: Env, tok: Tok, c: char)
    requires tok.state.Null? || tok.state.Boolean? || tok.state.Infinity?
    ensures Plain(tok, StepNull(env, tok, c).tok)
    ensures Plain(tok, StepBoolean(env, tok, c).tok)
    ensures Plain(tok, StepInfinity(env, tok, c).tok)
  {
    hide StepWord;
    var buf, k := tok.pb + [c], Append(tok, [c]);
    var v := JInfinity(buf[0] == '-');
    WordShape(env, k, buf, "null", JNull, "NaN", JNaN, BadNull);
    WordShape(env, k, buf, "true", JBool(true), "false", JBool(false), BadBoolean);
    WordShape(env, k, if buf[0] == '-' then buf[1..] else buf, "Infinity", v, "Infinity", v, UnexpectedChar);
  }

  lemma TextShape(tok: Tok, t: Text)
    requires t != []
    ensures tok.state.Body? ==> Plain(tok, StepBody(tok, t[0], tok.state.q).tok)
    ensures tok.state.Escape? ==> Plain(tok, StepEscape(tok, t[0], tok.state.q).tok)
    ensures tok.state.EscapeUnicode? ==> Plain(tok, StepUnicode(tok, t, tok.state.q, tok.state.hi).tok)
  {
    hide StepUnicode, Plain, StepEscape, StepBody;
    if tok.state.Body? {
      BodyShape(tok, t[0]);
    }
    if tok.state.Escape? {
      EscapeShape(tok, t[0]);
    }
    if tok.state.EscapeUnicode? {
      UnicodeShape(tok, t);
    }
  }

  lemma BodyShape(tok: Tok, c: char)
    requires tok.state.Body?
    ensures Plain(tok, StepBody(tok, c, tok.state.q).tok)
  {
  }

  lemma EscapeShape(tok: Tok, c: char)
    requires tok.state.Escape?
    ensures Plain(tok, StepEscape(tok, c, tok.state.q).tok)
  {
    hide Unescape;
  }

  lemma UnicodeShape(tok: Tok, t: Text)
    requires t != [] && tok.state.EscapeUnicode?
    ensures Plain(tok, StepUnicode(tok, t, tok.state.q, tok.state.hi).tok)
  {
    hide CodeAt, AddHexDigit, Utf8, Joins, IsHighSurrogate, IsLowSurrogate;
  }

  lemma PlaceShape(env: Env, tok: Tok, c: char)
    requires tok.state.At? && !tok.under.ResetLevel?
    ensures Shape(tok, StepAt(env, tok, c, tok.state.here).tok)
  {
    hide StepStart, StepFinish, StepElement, StepFieldStart, StepArraySep, StepObjectSep, StepFieldEnd, StepObjectValue;
    match tok.state.here
    case Start => StartShape(env, tok, c);
    case Finish(_) => FinishShape(tok);
    case Element(_, _) => ArrayShape(env, tok, c);
    case ArraySep(_) => ArrayShape(env, tok, c);
    case _ => ObjectShape(env, tok, c);
  }

  lemma StartShape(env: Env, tok: Tok, c: char)
    requires tok.state == At(Start)
    ensures Plain(tok, StepStart(env, tok, c).tok)
  {
  }

  lemma FinishShape(tok: Tok)
    requires tok.state.At? && tok.state.here.Finish? && !tok.under.ResetLevel?
    ensures Shape(tok, StepFinish(tok, tok.state.here.v).tok)
  {
  }

  lemma ArrayShape(env: Env, tok: Tok, c: char)
    requires tok.state.At?
    ensures tok.state.here.Element? ==>
              Shape(tok, StepElement(env, tok, c, tok.state.here.es, tok.state.here.afterSep).tok)
    ensures tok.state.here.ArraySep? ==> Plain(tok, StepArraySep(tok, c, tok.state.here.es).tok)
  {
    hide Depth;
  }

  lemma ObjectShape(env: Env, tok: Tok, c: char)
    requires tok.state.At?
    ensures var here := tok.state.here;
            && (here.FieldStart? ==> Plain(tok, StepFieldStart(env, tok, c, here.ms, here.afterSep).tok))
            && (here.FieldEnd? ==> Plain(tok, StepFieldEnd(tok, c, here.ms, here.key).tok))
            && (here.ObjectValue? ==> Shape(tok, StepObjectValue(env, tok, here.ms, here.key).tok))
            && (here.ObjectSep? ==> Plain(tok, StepObjectSep(tok, c, here.ms).tok))
  {
    hide Depth;
  }

  lemma SpaceShape(env: Env, tok: Tok, c: char)
    ensures tok.state.EatWs? ==> Plain(tok, StepEatWs(env, tok, c, tok.state.next).tok)
    ensures tok.state.CommentStart? || tok.state.Comment? || tok.state.CommentEol? || tok.state.CommentEnd? ==>
              Plain(tok, StepComment(tok, c).tok)
  {
  }

  lemma NumberShape(env: Env, tok: Tok, c: char)
    requires tok.state.Number?
    ensures Plain(tok, StepNumber(env, tok, c, tok.state.caseLen).tok)
  {
    hide ScanInt64;
  }

  lemma StepShape(env: Env, tok: Tok, t: Text)
    requires t != [] && !tok.under.ResetLevel?
    ensures Shape(tok, Step(env, tok, t).tok)
  {
    hide StepNull, StepBoolean, StepInfinity, StepNumber, StepBody, StepEscape, StepUnicode, StepAt, StepEatWs,
         StepComment;
    match tok.state
    case Null => KeywordShape(env, tok, t[0]);
    case Boolean => KeywordShape(env, tok, t[0]);
    case Infinity => KeywordShape(env, tok, t[0]);
    case Body(_) => TextShape(tok, t);
    case Escape(_) => TextShape(tok, t);
    case EscapeUnicode(_, _) => TextShape(tok, t);
    case At(_) => PlaceShape(env, tok, t[0]);
    case Number(_) => NumberShape(env, tok, t[0]);
    case ArrayAdd(_, _) =>
    case ObjectValueAdd(_, _, _) =>
    case _ => SpaceShape(env, tok, t[0]);
  }

  // The calls that go with a step
  ghost function Track(own: Own, tok: Tok, k: Tok): Own
    requires Holds(own, tok) && Shape(tok, k)
  {
    match tok.state
    case ArrayAdd(es, v) => AddElementKeeps(own, es, v, tok.under); ElementAdded(own)
    case ObjectValueAdd(ms, key, v) => AddMemberKeeps(own, key, ms, v, tok.under); MemberAdded(own, key)
    case _ =>
      if Plain(tok, k) then
        if CurrentOf(k.state) == CurrentOf(tok.state) then own else Stored(own, CurrentOf(k.state))
      else if Deeper(tok, k) then Pushed(own)
      else Popped(own)
  }

  lemma TrackKeeps(own: Own, tok: Tok, k: Tok)
    requires Holds(own, tok) && Shape(tok, k)
    ensures Holds(Track(own, tok, k), k)
  {
    hide HeapOk, Rising, Stands, ElementAdded, MemberAdded, Stored, Pushed, Popped, Put;
    match tok.state
    case ArrayAdd(es, v) => AddElementKeeps(own, es, v, tok.under);
    case ObjectValueAdd(ms, key, v) => AddMemberKeeps(own, key, ms, v, tok.under);
    case _ =>
      if Plain(tok, k) {
        if CurrentOf(k.state) != CurrentOf(tok.state) {
          StoreKeeps(own, CurrentOf(k.state), tok.under);
        }
      } else if Deeper(tok, k) {
        var v := CurrentOf(tok.state);
        PushKeeps(own, tok.under, if v.JArray? then v.elements else [], if v.JObject? then v.members else [],
                  if k.under.ObjectLevel? then k.under.key else "");
      } else {
        PopKeeps(own, CurrentOf(tok.state), tok.under);
      }
  }

  // ---- whole calls

  function Reversed(ps: seq<Option<Ref>>): seq<Option<Ref>> {
    if ps == [] then [] else Reversed(ps[1..]) + [ps[0]]
  }

  lemma {:induction false} ReversedTimes(ps: seq<Option<Ref>>, x: Ref)
    ensures Times(Reversed(ps), x) == Times(ps, x)
  {
    if ps != [] {
      ReversedTimes(ps[1..], x);
      TimesAppended(Reversed(ps[1..]), ps[0], x);
    }
  }

  lemma CoversReversed(held: Handles, ps: seq<Option<Ref>>)
    requires Covers(held, ps)
    ensures Covers(held, Reversed(ps))
  {
    forall x: Ref ensures Times(Reversed(ps), x) <= held(x) {
      ReversedTimes(ps, x);
    }
  }

  // json_tokener_reset_level for each level from the current one down
  ghost function AllReset(h: Heap, slots: seq<Option<Ref>>, held: Handles): Heap
    requires Balanced(h, held) && Covers(held, slots)
  {
    CoversReversed(held, slots);
    PutAll(h, Reversed(slots), held)
  }

  lemma ResetBalance(h: Heap, slots: seq<Option<Ref>>, held: Handles, after: Handles)
    requires Balanced(h, held) && Covers(held, slots) && Same(after, Minus(held, slots))
    ensures Balanced(AllReset(h, slots, held), after) && Settles(h, AllReset(h, slots, held))
  {
    CoversReversed(held, slots);
    forall x: Ref ensures Minus(held, Reversed(slots))(x) == after(x) {
      ReversedTimes(slots, x);
    }
    SameBalance(AllReset(h, slots, held), Minus(held, Reversed(slots)), after);
  }

  // What a call leaves: the heap, the tokener's references, and the reference it returns
  datatype End = End(own: Own, ret: Option<Ref>)

  // Behind the label out, on success: ret = json_object_get(current), and every level is reset.  The
  // current level's reference cancels against the one taken (GetThenPut).
  ghost function Returned(own: Own): End
    requires HeapOk(own) && own.slots != []
  {
    LowerCovered(own);
    End(own.(h := AllReset(own.h, Lower(own), HeldBy(own)), slots := seq(|own.slots|, i => None), obj := None),
        Top(own))
  }

  lemma LowerCovered(own: Own)
    requires HeapOk(own) && own.slots != []
    ensures Covers(HeldBy(own), Lower(own)) && Covers(HeldBy(own), own.slots)
    ensures forall x: Ref :: HeldBy(own)(x) == Times(Lower(own), x) + One(Top(own), x) + One(own.obj, x) + own.caller(x)
  {
    forall x: Ref ensures Times(own.slots, x) == Times(Lower(own), x) + One(Top(own), x) {
      TimesAppended(Lower(own), Top(own), x);
      assert Lower(own) + [Top(own)] == own.slots;
    }
  }

  // What others hold, and one reference to p
  ghost function HeldToo(own: Own, p: Option<Ref>): Handles {
    (x: Ref) => own.caller(x) + One(p, x)
  }

  // Of the new nodes only p is held; what is left of them is its tree, and held once.  The others are as before.
  ghost predicate Sole(own: Own, p: Option<Ref>, v: Value) {
    && OthersKept(own) && IsNew(own, p)
    && Finished(own.h) && Balanced(own.h, HeldToo(own, p)) && Den(own.h, p) == v
    && Ordered(own.h, |own.base|) && forall i | |own.base| <= i < |own.h| :: own.h[i].rc <= 1
  }

  // Resetting levels leaves what was there before alone.
  lemma ResetKeepsOthers(own: Own, slots: seq<Option<Ref>>)
    requires HeapOk(own) && Covers(HeldBy(own), slots) && forall i | 0 <= i < |slots| :: IsNew(own, slots[i])
    ensures AllReset(own.h, slots, HeldBy(own))[..|own.base|] == own.base
  {
    var held := HeldBy(own);
    NewIsClosed(own);
    CoversReversed(held, slots);
    var ps := Reversed(slots);
    forall i | 0 <= i < |ps| && ps[i].Some?
      ensures NewPart(own)(ps[i].value)
    {
      TimesOf(ps, i);
      ReversedTimes(slots, ps[i].value);
      var j := TimesAt(slots, ps[i].value);
    }
    hide HeapOk, Closed, Balanced, Covers;
    forall x: Ref | x < |own.base|
      ensures PutAll(own.h, ps, held)[x] == own.base[x]
    {
      PutAllStays(own.h, ps, held, NewPart(own), x);
      assert own.h[..|own.base|][x] == own.h[x];
    }
  }

  lemma ReturnIsSole(own: Own, v: Value, under: Stack)
    requires HeapOk(own) && Stands(own, v, JNull, under)
    ensures own.slots != [] && Sole(Returned(own).own, Returned(own).ret, v)
  {
    hide LevelsDenote, Slots, Times, AllReset;
    HeldIsAlive(own);
    DenNull(own, own.obj);
    LowerCovered(own);
    ResetKeepsOthers(own, Lower(own));
    var own', p := Returned(own).own, Top(own);
    ResetBalance(own.h, Lower(own), HeldBy(own), HeldToo(own, p));
    assert RcOf(own.h, |own.h|) == Slots(own.h, |own.h|) + HeldBy(own)(|own.h|);
    DenFrame(own.h, own'.h, HeldBy(own), |own.h|, p);
  }

  // json_tokener_reset frees everything the tokener has allocated, and nothing else.
  lemma ResetFreesAll(own: Own, tok: Tok, i: nat)
    requires Holds(own, tok) && HandedDown(tok.state) == JNull && i < |own.h|
    ensures Covers(HeldBy(own), own.slots)
    ensures var h' := AllReset(own.h, own.slots, HeldBy(own));
            if i < |own.base| then h'[i] == own.base[i] else h'[i].freed
  {
    HeldIsAlive(own);
    DenNull(own, own.obj);
    LowerCovered(own);
    var h' := AllReset(own.h, own.slots, HeldBy(own));
    ResetKeepsOthers(own, own.slots);
    ResetBalance(own.h, own.slots, HeldBy(own), HeldToo(own, None));
    if i < |own.base| {
      assert h'[..|own.base|][i] == h'[i];
    } else {
      NewIsClosed(own);
      hide HeapOk, Stands, LevelsDenote;
      forall p: Ref, x: Ref | PointsTo(h', p, x) && NewPart(own)(x)
        ensures NewPart(own)(p) && p < x
      {
        assert PointsTo(own.h, p, x);
      }
      PartLeft(h', HeldToo(own, None), (x: Ref) => x, NewPart(own), i);
      assert RcOf(h', i) == h'[i].rc;
    }
  }

  // A call that ends in the machine state k
  ghost function Ended(env: Env, own: Own, k: Tok, err: Error, c: char): End
    requires Holds(own, k)
  {
    if Out(env, k, err, c).err == Success && Held(k.state).Some? then Returned(own) else End(own, None)
  }

  lemma ForgottenHolds(own: Own, k: Tok)
    requires Holds(own, k)
    ensures Holds(own, Forget(k)) && Holds(own, Suspend(k))
  {
  }

  ghost function TrackRun(env: Env, own: Own, tok: Tok, t: Text): End
    requires Holds(own, tok)
    decreases |t|, if t == [] then 0 else Rank(tok, t[0])
  {
    ForgottenHolds(own, tok);
    if t == [] then
      Ended(env, own, Suspend(tok),
            if tok.under.Bottom? && tok.state.EatWs? && tok.state.next.Finish? then Success else Continue, 1 as char)
    else
      StepProgresses(env, tok, t);
      StepShape(env, tok, t);
      var k := Step(env, tok, t).tok;
      TrackKeeps(own, tok, k);
      ForgottenHolds(Track(own, tok, k), k);
      match Step(env, tok, t)
      case Redo(_) => TrackRun(env, Track(own, tok, k), k, t)
      case Eat(_, n) =>
        if t[0] == '\0' then Ended(env, Track(own, tok, k), Suspend(k), Success, '\0')
        else TrackRun(env, Track(own, tok, k), k, t[n..])
      case Stop(_, e) => Ended(env, Track(own, tok, k), Forget(k), e, t[0])
  }

  // What a call that ends with outcome o has done with its references
  ghost predicate Accounted(e: End, o: Outcome) {
    if o.err == Success then Sole(e.own, e.ret, o.value) && (forall i | 0 <= i < |e.own.slots| :: e.own.slots[i].None?)
    else e.ret.None? && Holds(e.own, o.tok) && HandedDown(o.tok.state) == JNull
  }

  lemma HeldIsCurrent(s: State)
    requires Held(s).Some?
    ensures CurrentOf(s) == Held(s).value && HandedDown(s) == JNull
  {
  }

  lemma EndIsAccounted(env: Env, own: Own, k: Tok, err: Error, c: char)
    requires Holds(own, k) && HandedDown(k.state) == JNull
    requires err == Success && c != '\0' ==> Held(k.state).Some?
    ensures Accounted(Ended(env, own, k, err, c), Out(env, k, err, c))
  {
    hide HeapOk, Rising, Stands, Sole, Returned;
    if Held(k.state).Some? {
      HeldIsCurrent(k.state);
      ReturnIsSole(own, CurrentOf(k.state), k.under);
      NoSlots(own);
    }
  }

  lemma NoSlots(own: Own)
    requires HeapOk(own) && own.slots != []
    ensures forall i | 0 <= i < |Returned(own).own.slots| :: Returned(own).own.slots[i].None?
  {
  }

  lemma StopIsHeld(env: Env, tok: Tok, t: Text)
    requires t != []
    ensures var m := Step(env, tok, t); m.Stop? && m.err == Success ==> Held(m.tok.state).Some?
  {
    hide StepNull, StepBoolean, StepInfinity, StepNumber, StepUnicode, Put;
    StopHasError(env, tok, t);
  }

  lemma StopHasError(env: Env, tok: Tok, t: Text)
    requires t != []
    ensures tok.state.Null? ==> StepNull(env, tok, t[0]).Stop? ==> StepNull(env, tok, t[0]).err != Success
    ensures tok.state.Boolean? ==> StepBoolean(env, tok, t[0]).Stop? ==> StepBoolean(env, tok, t[0]).err != Success
    ensures tok.state.Infinity? ==> StepInfinity(env, tok, t[0]).Stop? ==> StepInfinity(env, tok, t[0]).err != Success
    ensures tok.state.Number? ==>
              var m := StepNumber(env, tok, t[0], tok.state.caseLen); m.Stop? ==> m.err != Success
    ensures tok.state.EscapeUnicode? ==>
              var m := StepUnicode(tok, t, tok.state.q, tok.state.hi); m.Stop? ==> m.err != Success
  {
    hide MoveInWord, ScanInt64, Utf8, CodeAt, AddHexDigit;
  }

  // A value is on its way to a container only between two passes for the same character.
  lemma OnlyRedoHandsDown(env: Env, tok: Tok, t: Text)
    requires t != []
    ensures !Step(env, tok, t).Redo? ==> HandedDown(Step(env, tok, t).tok.state) == JNull
  {
    hide StepNull, StepBoolean, StepInfinity, StepNumber, StepBody, StepEscape, StepUnicode, StepAt, StepEatWs,
         StepComment;
    TextHandsNothing(tok, t);
    match tok.state
    case Null => WordHandsNothing(env, tok, t[0]);
    case Boolean => WordHandsNothing(env, tok, t[0]);
    case Infinity => WordHandsNothing(env, tok, t[0]);
    case At(_) => PlaceHandsNothing(env, tok, t[0]);
    case Number(_) => NumberShape(env, tok, t[0]);
    case EatWs(_) => SpaceShape(env, tok, t[0]);
    case CommentStart(_) => SpaceShape(env, tok, t[0]);
    case Comment(_) => SpaceShape(env, tok, t[0]);
    case CommentEol(_) => SpaceShape(env, tok, t[0]);
    case CommentEnd(_) => SpaceShape(env, tok, t[0]);
    case _ =>
  }

  lemma TextHandsNothing(tok: Tok, t: Text)
    requires t != []
    ensures tok.state.Body? || tok.state.Escape? || tok.state.EscapeUnicode? ==>
              var m := if tok.state.Body? then StepBody(tok, t[0], tok.state.q)
                       else if tok.state.Escape? then StepEscape(tok, t[0], tok.state.q)
                       else StepUnicode(tok, t, tok.state.q, tok.state.hi);
              HandedDown(m.tok.state) == JNull
  {
    hide StepBody, StepEscape, StepUnicode;
    TextShape(tok, t);
  }

  lemma WordHandsNothing(env: Env, tok: Tok, c: char)
    requires tok.state.Null? || tok.state.Boolean? || tok.state.Infinity?
    ensures HandedDown(StepNull(env, tok, c).tok.state) == JNull
    ensures HandedDown(StepBoolean(env, tok, c).tok.state) == JNull
    ensures HandedDown(StepInfinity(env, tok, c).tok.state) == JNull
  {
    hide StepNull, StepBoolean, StepInfinity;
    KeywordShape(env, tok, c);
  }

  lemma PlaceHandsNothing(env: Env, tok: Tok, c: char)
    requires tok.state.At?
    ensures var m := StepAt(env, tok, c, tok.state.here); !m.Redo? ==> HandedDown(m.tok.state) == JNull
  {
  }

  lemma SuspendedIsHeld(k: Tok)
    ensures Held(Suspend(k).state) == Held(k.state) == Held(Forget(k).state)
    ensures HandedDown(Suspend(k).state) == HandedDown(k.state) == HandedDown(Forget(k).state)
  {
  }

  lemma StepShapeOf(env: Env, own: Own, tok: Tok, t: Text)
    requires t != [] && Holds(own, tok)
    ensures Shape(tok, Step(env, tok, t).tok)
  {
    StepShape(env, tok, t);
  }

  // What the calls leave as it is: what was there before, and what others hold
  lemma {:induction false} OthersAre(env: Env, own: Own, tok: Tok, t: Text)
    requires Holds(own, tok)
    ensures TrackRun(env, own, tok, t).own.base == own.base && TrackRun(env, own, tok, t).own.caller == own.caller
    decreases |t|, if t == [] then 0 else Rank(tok, t[0])
  {
    hide Holds, Step, Shape, Out, Suspend, Forget, Held, HandedDown;
    ForgottenHolds(own, tok);
    if t != [] {
      StepProgresses(env, tok, t);
      StepShapeOf(env, own, tok, t);
      var k := Step(env, tok, t).tok;
      TrackKeeps(own, tok, k);
      var own1 := Track(own, tok, k);
      ForgottenHolds(own1, k);
      match Step(env, tok, t)
      case Redo(_) => OthersAre(env, own1, k, t);
      case Eat(_, n) =>
        if t[0] != '\0' {
          OthersAre(env, own1, k, t[n..]);
        }
      case Stop(_, e) =>
    }
  }

  // Every call, in whatever way it ends, accounts for each node it has allocated, and leaves all others alone.  On
  // success the caller holds the tree of the value that is returned, each node of it held just once, and the tokener
  // holds nothing.  Otherwise the tokener still holds all that is new.
  lemma {:induction false} ParseIsAccounted(env: Env, own: Own, tok: Tok, t: Text)
    requires Holds(own, tok) && (t == [] ==> HandedDown(tok.state) == JNull)
    ensures Accounted(TrackRun(env, own, tok, t), Run(env, tok, t))
    ensures TrackRun(env, own, tok, t).own.base == own.base && TrackRun(env, own, tok, t).own.caller == own.caller
    decreases |t|, if t == [] then 0 else Rank(tok, t[0])
  {
    OthersAre(env, own, tok, t);
    hide Holds, Track, Step, Shape, Accounted, Ended, Out, Suspend, Forget, Held, HandedDown;
    ForgottenHolds(own, tok);
    if t == [] {
      AtEndIsAccounted(env, own, tok);
    } else {
      StepProgresses(env, tok, t);
      StepShapeOf(env, own, tok, t);
      var k := Step(env, tok, t).tok;
      TrackKeeps(own, tok, k);
      var own1 := Track(own, tok, k);
      ForgottenHolds(own1, k);
      SuspendedIsHeld(k);
      OnlyRedoHandsDown(env, tok, t);
      match Step(env, tok, t)
      case Redo(_) => ParseIsAccounted(env, own1, k, t);
      case Eat(_, n) =>
        if t[0] == '\0' {
          EndIsAccounted(env, own1, Suspend(k), Success, '\0');
          UsedApart(TrackRun(env, own, tok, t), Out(env, Suspend(k), Success, '\0'), n);
        } else {
          ParseIsAccounted(env, own1, k, t[n..]);
          UsedApart(TrackRun(env, own, tok, t), Run(env, k, t[n..]), n);
        }
      case Stop(_, e) =>
        StopIsHeld(env, tok, t);
        EndIsAccounted(env, own1, Forget(k), e, t[0]);
    }
  }

  lemma UsedApart(e: End, o: Outcome, n: nat)
    requires Accounted(e, o)
    ensures Accounted(e, After(n, o))
  {
  }

  lemma AtEndIsAccounted(env: Env, own: Own, tok: Tok)
    requires Holds(own, tok) && HandedDown(tok.state) == JNull
    ensures Accounted(TrackRun(env, own, tok, []), Run(env, tok, []))
  {
    hide Holds, Accounted, Ended, Out;
    ForgottenHolds(own, tok);
    SuspendedIsHeld(tok);
    EndIsAccounted(env, own, Suspend(tok),
                   if tok.under.Bottom? && tok.state.EatWs? && tok.state.next.Finish? then Success else Continue,
                     1 as char);
  }

  // A parse that fails, in this call or after more chunks, followed by json_tokener_reset: every node
  // the tokener has allocated is freed, and what was there before is as it was.
  lemma FailureFreesAll(env: Env, own: Own, tok: Tok, t: Text)
    requires Holds(own, tok) && HandedDown(tok.state) == JNull && Run(env, tok, t).err != Success
    ensures var left := TrackRun(env, own, tok, t).own;
            && HeapOk(left) && Covers(HeldBy(left), left.slots) && left.base == own.base
            && var h' := AllReset(left.h, left.slots, HeldBy(left));
               forall i | 0 <= i < |left.h| :: if i < |own.base| then h'[i] == own.base[i] else h'[i].freed
  {
    ParseIsAccounted(env, own, tok, t);
    var left, k := TrackRun(env, own, tok, t).own, Run(env, tok, t).tok;
    hide TrackRun, Run, Stands;
    LowerCoveredOf(left, k);
    var h' := AllReset(left.h, left.slots, HeldBy(left));
    forall i | 0 <= i < |left.h|
      ensures if i < |own.base| then h'[i] == own.base[i] else h'[i].freed
    {
      ResetFreesAll(left, k, i);
    }
  }

  lemma LowerCoveredOf(own: Own, k: Tok)
    requires Holds(own, k)
    ensures Covers(HeldBy(own), own.slots)
  {
    LowerCovered(own);
  }

  // A new tokener, whatever is on the heap and whoever holds it
  lemma NewHolds(h: Heap, caller: Handles)
    requires Balanced(h, caller) && Finished(h)
    ensures Holds(Own(h, [None], None, h, caller), NEW)
  {
    var own := Own(h, [None], None, h, caller);
    forall x: Ref
      ensures HeldBy(own)(x) == caller(x) && caller(x) >= 0 && (x >= |h| ==> caller(x) == 0 && Slots(h, x) == 0)
    {
      OneOf([None]);
      NoTimes(x);
      assert RcOf(h, x) == Slots(h, x) + caller(x);
    }
    SameBalance(h, caller, HeldBy(own));
    forall p: Ref, x: Ref | PointsTo(h, p, x)
      ensures x < |h|
    {
      OwnInSlots(h, p, x);
    }
  }

  // The next parse may start while what the last one returned is still held.
  lemma NextHolds(own: Own, p: Option<Ref>, v: Value)
    requires Sole(own, p, v)
    ensures Holds(Own(own.h, [None], None, own.h, HeldToo(own, p)), NEW)
  {
    hide HeapOk, Rising, Stands;
    NewHolds(own.h, HeldToo(own, p));
  }
}
