// struct array_list: a growable array of pointers that owns what it points to.

module ArrayList {
  import opened Arith
  import opened Options

  // A pointer: None is NULL
  type Slot<T> = Option<T>

  // The elements once data is stored at idx; the gap in front of it is filled with NULL
  function PutAt<T>(s: seq<Slot<T>>, idx: nat, data: Slot<T>): (r: seq<Slot<T>>)
    ensures |r| == Max(|s|, idx + 1) && r[idx] == data
    ensures forall i | 0 <= i < |r| && i != idx :: r[i] == if i < |s| then s[i] else None
  {
    if idx < |s| then s[idx := data] else s + seq(idx - |s|, i => None) + [data]
  }

  // What the slots point to
  function Pointees<T>(s: seq<Slot<T>>): seq<T> {
    if s == [] then [] else Pointees(s[..|s| - 1]) + if s[|s| - 1].Some? then [s[|s| - 1].value] else []
  }

  // What a store at idx replaces
  function Replaced<T>(s: seq<Slot<T>>, idx: nat): seq<T> {
    if idx < |s| && s[idx].Some? then [s[idx].value] else []
  }

  // Storing into the whole array, whose slots past the length are NULL
  lemma PutInto<T>(all: seq<Slot<T>>, length: nat, idx: nat, data: Slot<T>)
    requires length <= |all| && idx < |all| && forall i | length <= i < |all| :: all[i].None?
    ensures all[idx := data][..Max(length, idx + 1)] == PutAt(all[..length], idx, data)
    ensures Replaced(all[..length], idx) == if all[idx].Some? then [all[idx].value] else []
  {
  }

  // ARRAY_LIST_DEFAULT_SIZE
  const DEFAULT_SIZE := 32

  class List<T> {
    var slots: array<Slot<T>>
    var length: int
    var size: int
    ghost var freed: seq<T>               // what free_fn has been called with

    ghost predicate Valid()
      reads this, slots
    {
      && size == slots.Length && 0 <= length <= size && size > 0
      && forall i | length <= i < size :: slots[i].None?
    }

    ghost function Items(): seq<Slot<T>>
      requires Valid()
      reads this, slots
    {
      slots[..length]
    }

    // array_list_new
    constructor ()
      ensures Valid() && fresh(slots) && Items() == [] && freed == [] && size == 32
    {
      slots := new Slot<T>[DEFAULT_SIZE](_ => None);
      size, length, freed := DEFAULT_SIZE, 0, [];
    }

    // array_list_get_idx
    method GetIdx(i: nat) returns (x: Slot<T>)
      requires Valid()
      ensures x == if i < |Items()| then Items()[i] else None
    {
      if i >= length {
        return None;
      }
      return slots[i];
    }

    // array_list_expand_internal: the new slots are NULL
    method Expand(max: nat)
      requires Valid()
      modifies `slots, `size
      ensures Valid() && (slots == old(slots) || fresh(slots))
      ensures size == if max < old(size) then old(size) else Max(2 * old(size), max)
      ensures Items() == old(Items())
    {
      if max < size {
        return;
      }
      var newSize := Max(2 * size, max);
      var t := new Slot<T>[newSize](_ => None);
      forall i | 0 <= i < size {
        t[i] := slots[i];
      }
      slots := t;
      size := newSize;
      assert Items() == old(Items());
    }

    // array_list_put_idx: an element that is replaced is freed.
    method PutIdx(idx: nat, data: Slot<T>)
      requires Valid()
      modifies this, slots
      ensures Valid() && (slots == old(slots) || fresh(slots))
      ensures Items() == PutAt(old(Items()), idx, data)
      ensures freed == old(freed) + Replaced(old(Items()), idx)
    {
      hide PutAt;
      Expand(idx + 1);
      ghost var all, n := slots[..], length;
      PutInto(all, n, idx, data);
      if slots[idx].Some? {
        freed := freed + [slots[idx].value];
      }
      slots[idx] := data;
      if length <= idx {
        length := idx + 1;
      }
      assert slots[..] == all[idx := data];
      assert slots[..length] == slots[..][..length] && all[..n] == old(Items());
    }

    // array_list_add
    method Add(data: Slot<T>)
      requires Valid()
      modifies this, slots
      ensures Valid() && (slots == old(slots) || fresh(slots))
      ensures Items() == old(Items()) + [data] && freed == old(freed)
    {
      PutIdx(length, data);
    }

    // array_list_free: free_fn for every pointer in the list
    method Free()
      requires Valid()
      modifies `freed
      ensures freed == old(freed) + Pointees(Items())
    {
      var i := 0;
      while i < length
        invariant 0 <= i <= length
        invariant freed == old(freed) + Pointees(slots[..i])
      {
        assert slots[..i + 1][..i] == slots[..i];
        if slots[i].Some? {
          freed := freed + [slots[i].value];
        }
        i := i + 1;
      }
    }
  }

  // ---- every run

  datatype Op<T> = DoAdd(data: Slot<T>) | DoPut(idx: nat, data: Slot<T>)

  function Stored<T>(ops: seq<Op<T>>): seq<Slot<T>> {
    if ops == [] then []
    else
      var before := Stored(ops[..|ops| - 1]);
      match ops[|ops| - 1]
      case DoAdd(data) => before + [data]
      case DoPut(idx, data) => PutAt(before, idx, data)
  }

  function One<T(==)>(data: Slot<T>, x: T): nat {
    if data == Some(x) then 1 else 0
  }

  // How often x is among the slots, or among the pointers handed over
  function Times<T(==)>(s: seq<Slot<T>>, x: T): nat {
    if s == [] then 0 else Times(s[..|s| - 1], x) + One(s[|s| - 1], x)
  }

  function TimesIn<T(==)>(s: seq<T>, x: T): nat {
    if s == [] then 0 else TimesIn(s[..|s| - 1], x) + One(Some(s[|s| - 1]), x)
  }

  function TimesGiven<T(==)>(ops: seq<Op<T>>, x: T): nat {
    if ops == [] then 0 else TimesGiven(ops[..|ops| - 1], x) + One(ops[|ops| - 1].data, x)
  }

  lemma {:induction false} TimesUpdated<T>(s: seq<Slot<T>>, idx: nat, data: Slot<T>, x: T)
    requires idx < |s|
    ensures Times(s[idx := data], x) + One(s[idx], x) == Times(s, x) + One(data, x)
  {
    var n, u := |s| - 1, s[idx := data];
    if idx < n {
      TimesUpdated(s[..n], idx, data, x);
      assert u[..n] == s[..n][idx := data];
    } else {
      assert u[..n] == s[..n];
    }
  }

  lemma {:induction false} TimesPadded<T>(s: seq<Slot<T>>, n: nat, x: T)
    ensures Times(s + seq(n, i => None), x) == Times(s, x)
  {
    var padded := s + seq(n, i => None);
    if n > 0 {
      assert padded[..|padded| - 1] == s + seq(n - 1, i => None);
      TimesPadded(s, n - 1, x);
    } else {
      assert padded == s;
    }
  }

  // One operation: what the list holds and what it has freed grow by what is handed over.
  lemma Conserved<T>(s: seq<Slot<T>>, idx: nat, data: Slot<T>, freed: seq<T>, x: T)
    ensures Times(PutAt(s, idx, data), x) + TimesIn(freed + Replaced(s, idx), x) ==
            Times(s, x) + TimesIn(freed, x) + One(data, x)
  {
    if idx < |s| {
      TimesUpdated(s, idx, data, x);
      if s[idx].Some? {
        assert (freed + [s[idx].value])[..|freed|] == freed;
      } else {
        assert freed + [] == freed;
      }
    } else {
      var padded := s + seq(idx - |s|, i => None);
      TimesPadded(s, idx - |s|, x);
      assert PutAt(s, idx, data) == padded + [data];
      assert (padded + [data])[..idx] == padded && freed + [] == freed;
    }
  }

  lemma TimesInMore<T>(s: seq<T>, y: T, x: T)
    ensures TimesIn(s + [y], x) == TimesIn(s, x) + One(Some(y), x)
  {
    assert (s + [y])[..|s|] == s;
  }

  lemma {:induction false} TimesPointees<T>(s: seq<Slot<T>>, freed: seq<T>, x: T)
    ensures TimesIn(freed + Pointees(s), x) == TimesIn(freed, x) + Times(s, x)
  {
    if s == [] {
      assert freed + Pointees(s) == freed;
    } else {
      var n := |s| - 1;
      TimesPointees(s[..n], freed, x);
      var front := freed + Pointees(s[..n]);
      if s[n].Some? {
        assert freed + Pointees(s) == front + [s[n].value];
        TimesInMore(front, s[n].value, x);
      } else {
        assert freed + Pointees(s) == front;
      }
    }
  }

  lemma AppendIsPut<T>(s: seq<Slot<T>>, data: Slot<T>)
    ensures PutAt(s, |s|, data) == s + [data] && Replaced(s, |s|) == []
  {
  }

  // The next operation as a store at some index
  function IndexOf<T>(op: Op<T>, s: seq<Slot<T>>): nat {
    if op.DoAdd? then |s| else op.idx
  }

  lemma OneMore<T>(ops: seq<Op<T>>, i: nat)
    requires i < |ops|
    ensures var before := Stored(ops[..i]);
            Stored(ops[..i + 1]) == PutAt(before, IndexOf(ops[i], before), ops[i].data)
    ensures forall x :: TimesGiven(ops[..i + 1], x) == TimesGiven(ops[..i], x) + One(ops[i].data, x)
  {
    assert ops[..i + 1][..i] == ops[..i];
    AppendIsPut(Stored(ops[..i]), ops[i].data);
    hide PutAt;
  }

  // Whatever is added and replaced, every pointer is freed as often as it was handed to the list by
  // the time the list is freed: when it is replaced, or at the end.
  method Replay<T(!new)>(ops: seq<Op<T>>) returns (items: seq<Slot<T>>, ghost freed: seq<T>)
    ensures items == Stored(ops)
    ensures forall x :: TimesIn(freed, x) == TimesGiven(ops, x)
  {
    hide PutAt, Times, TimesIn, TimesGiven, Stored, One, Replaced, Pointees;
    var list := new List<T>();
    var i := 0;
    NothingYet(ops);
    while i < |ops|
      invariant 0 <= i <= |ops|
      invariant fresh(list) && fresh(list.slots) && list.Valid()
      invariant list.Items() == Stored(ops[..i])
      invariant forall x :: Times(list.Items(), x) + TimesIn(list.freed, x) == TimesGiven(ops[..i], x)
    {
      OneMore(ops, i);
      ghost var s, gone := list.Items(), list.freed;
      match ops[i] {
        case DoAdd(data) =>
          AppendIsPut(s, data);
          list.Add(data);
          assert gone + [] == gone;
        case DoPut(idx, data) =>
          list.PutIdx(idx, data);
      }
      forall x ensures Times(list.Items(), x) + TimesIn(list.freed, x) == TimesGiven(ops[..i + 1], x) {
        Conserved(s, IndexOf(ops[i], s), ops[i].data, gone, x);
      }
      i := i + 1;
    }
    assert ops[..i] == ops;
    items := list.slots[..list.length];
    ghost var before := list.freed;
    list.Free();
    freed := list.freed;
    forall x ensures TimesIn(freed, x) == TimesGiven(ops, x) {
      TimesPointees(items, before, x);
    }
  }

  lemma NothingYet<T>(ops: seq<Op<T>>)
    ensures Stored(ops[..0]) == []
    ensures forall x :: Times<T>([], x) == 0 && TimesIn<T>([], x) == 0 && TimesGiven(ops[..0], x) == 0
  {
    assert ops[..0] == [];
  }
}
