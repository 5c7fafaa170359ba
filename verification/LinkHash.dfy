// struct lh_table: a linked hash table, its slots and links updated in place.

module LinkHash {
  import opened Options
  import opened OrderedMap
  import opened HashSlots

  class LhTable<K(==, !new), V> {
    const hash: K -> nat
    var table: array<Entry<K, V>>
    var size: int
    var count: int
    var head: int
    var tail: int
    ghost var list: seq<int>              // the live slots from head to tail
    ghost var freed: Entries<K, V>        // what free_fn has been called with

    ghost function Now(): Table<K, V>
      reads this, table
    {
      Table(table[..], head, tail, count, list)
    }

    ghost predicate Valid()
      reads this, table
    {
      size == table.Length && Ok(Now(), hash) && size > 0
    }

    ghost function Contents(): Entries<K, V>
      requires Valid()
      reads this, table
    {
      EntriesOf(Now())
    }

    // lh_table_new
    constructor (size: nat, hash: K -> nat)
      requires size > 0
      ensures Valid() && fresh(table) && this.size == size && this.hash == hash
      ensures Contents() == [] && freed == []
    {
      this.hash := hash;
      this.size := size;
      table := new Entry<K, V>[size](_ => Entry(Empty, None, NIL, NIL));
      count, head, tail := 0, NIL, NIL;
      list, freed := [], [];
    }

    // lh_table_lookup_entry: the position of the slot with key k, or NIL.  Only the first `size` slots are looked at.
    method LookupEntry(k: K) returns (n: int)
      requires 0 < size <= table.Length
      ensures n == NIL || (0 <= n < size && table[n].k == Live(k))
      ensures Valid() && n == NIL ==> !Has(Contents(), k)
      ensures Valid() && n != NIL ==> exists i :: 0 <= i < |list| && list[i] == n && Contents()[i].0 == k
    {
      var start := hash(k) % size;
      n := start;
      var steps := 0;
      while steps < size
        invariant 0 <= steps <= size && (steps < size ==> n == At(start, steps, size))
        invariant Valid() ==> Missed(Now(), start, k, steps)
      {
        if table[n].k == Empty {
          MissedIn(k, steps);
          return NIL;
        }
        if table[n].k == Live(k) {
          FoundIn(n);
          return n;
        }
        n := n + 1;
        if n == size {
          n := 0;
        }
        steps := steps + 1;
      }
      MissedIn(k, steps);
      return NIL;
    }

    lemma MissedIn(k: K, steps: nat)
      requires 0 < size <= table.Length && steps <= size
      requires Valid() ==> Missed(Now(), hash(k) % size, k, steps)
      requires steps < size ==> table[At(hash(k) % size, steps, size)].k == Empty
      ensures Valid() ==> !Has(Contents(), k)
    {
      if Valid() {
        MissedAltogether(Now(), hash, k, steps);
      }
    }

    lemma FoundIn(n: nat)
      requires n < table.Length && table[n].k.Live?
      ensures Valid() ==> exists i :: 0 <= i < |list| && list[i] == n && Contents()[i].0 == table[n].k.key
    {
      if Valid() {
        SlotIsListed(Now(), n);
      }
    }

    // lh_table_lookup_ex
    method LookupEx(k: K) returns (v: Option<V>)
      requires Valid()
      ensures v.None? <==> !Has(Contents(), k)
      ensures v.Some? ==> (k, v.value) in Contents()
      ensures Distinct(Contents()) ==> v == Get(Contents(), k)
    {
      var n := LookupEntry(k);
      if n == NIL {
        return None;
      }
      ghost var i :| 0 <= i < |list| && list[i] == n && Contents()[i].0 == k;
      EntryIs(Now(), i);
      if Distinct(Contents()) {
        OnlyEntry(Contents(), i);
      }
      return table[n].v;
    }

    // Where lh_table_insert puts the key k
    method Probe(k: K) returns (n: nat)
      requires Valid() && count < size
      ensures n < table.Length && !table[n].k.Live?
      ensures Reachable(table[..], hash(k) % size, n)
    {
      var start := hash(k) % size;
      RoomAhead(Now(), start);
      ghost var room :| 0 <= room < size && !table[..][At(start, room, size)].k.Live?;
      n := start;
      ghost var steps := 0;
      while true
        invariant 0 <= steps <= room && n == At(start, steps, size)
        invariant forall i | 0 <= i < steps :: table[At(start, i, size)].k.Live?
        decreases room - steps
      {
        if table[n].k == Empty || table[n].k == Freed {
          assert Dist(start, n, size) == steps;
          return;
        }
        n := n + 1;
        if n == size {
          n := 0;
        }
        steps := steps + 1;
      }
    }

    // lh_table_insert
    method Insert(k: K, v: V)
      requires Valid()
      modifies this, table
      ensures Valid() && (table == old(table) || fresh(table)) && count == old(count) + 1
      ensures Contents() == old(Contents()) + [(k, v)] && freed == old(freed)
      ensures size == old(if IsLoaded(count, size) then 2 * size else size)
      decreases if IsLoaded(count, size) then 2 else 0, 0
    {
      if IsLoaded(count, size) {
        DoublingIsSafe(count, size);
        Resize(2 * size);
      }
      Add(k, v);
    }

    // The rest of lh_table_insert, on a table below its load
    method Add(k: K, v: V)
      requires Valid() && !IsLoaded(count, size)
      modifies this, table
      ensures Valid() && table == old(table) && size == old(size) && count == old(count) + 1
      ensures Contents() == old(Contents()) + [(k, v)] && freed == old(freed)
    {
      ghost var t := Now();
      var n := Probe(k);
      AddedIsThreaded(t, n, k, v);
      AddedIsFound(t, hash, n, k, v);
      TailIsLive(t);
      hide Threaded, Found, Reachable, EntriesOf;
      table[n] := Entry(Live(k), Some(v), NIL, tail);
      count := count + 1;
      list := list + [n];
      if head == NIL {
        head, tail := n, n;
      } else {
        table[tail] := table[tail].(next := n);
        tail := n;
      }
      assert Now() == Added(t, n, k, v);
    }

    // lh_table_resize: the entries inserted one by one into a new table.  When these insertions make that table resize
    // in its turn, its array is taken over, but not its size.
    method Resize(newSize: nat)
      requires Valid() && newSize > 0
      modifies this
      ensures fresh(table) && size == newSize && count == old(count) && freed == old(freed)
      ensures Ok(Now(), hash) && EntriesOf(Now()) == old(Contents())
      ensures if WithinLoad(count, newSize) then Valid() else size < table.Length
      decreases if WithinLoad(count, newSize) then 1 else 3, 1
    {
      var t := new LhTable<K, V>(newSize, hash);
      CopyTo(t);
      table, size, head, tail := t.table, newSize, t.head, t.tail;
      list := t.list;
      CountIs(Now());
    }

    method CopyTo(t: LhTable<K, V>)
      requires Valid() && t.Valid() && t != this && t.table != table && t.Contents() == [] && t.hash == hash
      modifies t, t.table
      ensures t.Valid() && (t.table == old(t.table) || fresh(t.table)) && t.count == count
      ensures t.Contents() == Contents()
      ensures if WithinLoad(count, old(t.size)) then t.size == old(t.size) else t.size > old(t.size)
      decreases if WithinLoad(count, t.size) then 1 else 3, 0
    {
      hide Linked, Listed, Found, InRange, EntriesOf;
      CountIs(Now());
      CountIs(t.Now());
      var ent := head;
      ghost var i, newSize := 0, t.size;
      HeadIs(Now());
      while ent != NIL
        invariant 0 <= i <= |Contents()| == |list| && ent == First(list[i..])
        invariant t.Valid() && (t.table == old(t.table) || fresh(t.table)) && t.count == i
        invariant t.Contents() == Contents()[..i]
        invariant if WithinLoad(i, newSize) then t.size == newSize else t.size > newSize
        decreases |list| - i
      {
        Walk(Now(), i);
        if WithinLoad(count, newSize) {
          LoadGrows(i, count, newSize);
        }
        t.Insert(table[ent].k.key, table[ent].v.value);
        ent := table[ent].next;
        i := i + 1;
      }
      WalkEnds(Now(), i);
      assert Contents()[..i] == Contents();
    }

    // lh_foreach: the entries from head to tail
    method ToList() returns (all: Entries<K, V>)
      requires Valid()
      ensures all == Contents()
    {
      hide Linked, Listed, Found, InRange, EntriesOf;
      CountIs(Now());
      HeadIs(Now());
      all := [];
      var entry := head;
      ghost var i := 0;
      while entry != NIL
        invariant 0 <= i <= |Contents()| == |list| && entry == First(list[i..])
        invariant all == Contents()[..i]
        decreases |list| - i
      {
        Walk(Now(), i);
        all := all + [(table[entry].k.key, table[entry].v.value)];
        entry := table[entry].next;
        i := i + 1;
      }
      WalkEnds(Now(), i);
      assert Contents()[..i] == Contents();
    }

    // lh_table_delete_entry
    method DeleteEntry(n: int) returns (r: int)
      requires Valid() && n < table.Length
      modifies this, table
      ensures Valid() && table == old(table) && size == old(size)
      ensures r == if n < 0 then -2 else if !old(table[n]).k.Live? then -1 else 0
      ensures r != 0 ==> Contents() == old(Contents()) && freed == old(freed)
      ensures r == 0 ==>
                exists i :: 0 <= i < |old(list)| && old(list)[i] == n &&
                  Contents() == Without(old(Contents()), i) && freed == old(freed) + [old(Contents())[i]] &&
                  list == Without(old(list), i)
    {
      if n < 0 {
        return -2;
      }
      if table[n].k == Empty || table[n].k == Freed {
        return -1;
      }
      SlotIsListed(Now(), n);
      ghost var i :| 0 <= i < |list| && list[i] == n;
      RemoveAt(n, i);
      return 0;
    }

    // The i-th live slot, n
    method RemoveAt(n: nat, ghost i: nat)
      requires Valid() && i < |list| && list[i] == n
      modifies this, table
      ensures Valid() && table == old(table) && size == old(size) && list == Without(old(list), i)
      ensures i < |old(Contents())| && freed == old(freed) + [old(Contents())[i]]
      ensures Contents() == Without(old(Contents()), i)
      ensures table[n] == Entry(Freed, None, NIL, NIL)
      ensures forall m | 0 <= m < table.Length && m != n :: table[m].k == old(table[m].k)
    {
      ghost var t := Now();
      ShorterIsOk(t, hash, i);
      DeletedSlots(t, i);
      hide Ok, EntriesOf, Threaded, Deleted, Without;
      freed := freed + [Contents()[i]];
      count := count - 1;
      list := Without(list, i);
      Unlink(n);
      assert Now() == Shorter(t, i);
    }

    // lh_table_delete; i is the place of the entry that is gone.
    method Delete(k: K) returns (r: int, ghost i: nat)
      requires Valid()
      modifies this, table
      ensures Valid() && table == old(table) && size == old(size)
      ensures r == if Has(old(Contents()), k) then 0 else -1
      ensures r == 0 ==>
                && i < |old(list)| && old(Contents())[i].0 == k && list == Without(old(list), i)
                && Contents() == Without(old(Contents()), i) && freed == old(freed) + [old(Contents())[i]]
                && 0 <= old(list)[i] < table.Length && table[old(list)[i]] == Entry(Freed, None, NIL, NIL)
                && forall m | 0 <= m < table.Length && m != old(list)[i] :: table[m].k == old(table[m].k)
      ensures r != 0 ==>
                Contents() == old(Contents()) && list == old(list) && freed == old(freed) && table[..] == old(table[..])
      ensures old(Distinct(Contents())) ==> Contents() == Remove(old(Contents()), k) && Distinct(Contents())
    {
      hide Ok, EntriesOf;
      i := 0;
      ghost var m := Contents();
      var n := LookupEntry(k);
      if n == NIL {
        NotFound(m, k);
        return -1, 0;
      }
      i :| 0 <= i < |list| && list[i] == n && Contents()[i].0 == k;
      if Distinct(m) {
        OnlyEntry(m, i);
        StaysDistinct(m, i);
      }
      RemoveAt(n, i);
      return 0, i;
    }

    // lh_table_free: free_fn for every entry
    method Free()
      requires Valid()
      modifies `freed
      ensures freed == old(freed) + Contents()
    {
      hide Linked, Listed, Found, InRange, EntriesOf;
      CountIs(Now());
      HeadIs(Now());
      var c := head;
      ghost var i := 0;
      assert freed == old(freed) + Contents()[..0];
      while c != NIL
        invariant 0 <= i <= |Contents()| == |list| && c == First(list[i..])
        invariant freed == old(freed) + Contents()[..i]
        decreases |list| - i
      {
        Walk(Now(), i);
        freed := freed + [Contents()[i]];
        c := table[c].next;
        i := i + 1;
      }
      WalkEnds(Now(), i);
      assert Contents()[..i] == Contents();
    }

    // json_object_object_add: the value of a key that is there is replaced in place.
    method ObjectAdd(k: K, v: V)
      requires Valid() && Distinct(Contents())
      modifies this, table
      ensures Valid() && (table == old(table) || fresh(table)) && freed == old(freed)
      ensures Contents() == Put(old(Contents()), k, v) && Distinct(Contents())
      ensures Has(old(Contents()), k) ==>
                && table == old(table) && list == old(list) && size == old(size)
                && forall m | 0 <= m < table.Length :: table[m].k == old(table[m].k)
      ensures !Has(old(Contents()), k) ==>
                size == if 100 * |old(Contents())| >= 66 * old(size) then 2 * old(size) else old(size)
    {
      CountIs(Now());
      hide Ok, EntriesOf;
      ghost var m := Contents();
      var n := LookupEntry(k);
      if n == NIL {
        NotFound(m, k);
        NewKeyIsDistinct(m, k, v);
        Insert(k, v);
        return;
      }
      ghost var i :| 0 <= i < |list| && list[i] == n && Contents()[i].0 == k;
      OnlyEntry(m, i);
      SameKeys(m, i, v);
      ReplacedIsOk(Now(), hash, i, v);
      ghost var t := Now();
      table[n] := table[n].(v := Some(v));
      assert Now() == Replaced(t, n, v);
    }

    // The links around slot n, and the tombstone
    method Unlink(n: nat)
      requires n < table.Length && NIL <= table[n].prev < table.Length && NIL <= table[n].next < table.Length
      requires 0 <= head < table.Length && 0 <= tail < table.Length
      requires (n == tail <==> table[n].next == NIL) && (n == head <==> table[n].prev == NIL)
      modifies table, `head, `tail
      ensures table[..] == old(Deleted(Now(), n))
      ensures head == old(if table[n].prev == NIL then table[n].next else head)
      ensures tail == old(if table[n].next == NIL then table[n].prev else tail)
    {
      table[n] := table[n].(v := None, k := Freed);
      if tail == n && head == n {
        head, tail := NIL, NIL;
      } else if head == n {
        table[table[head].next] := table[table[head].next].(prev := NIL);
        head := table[head].next;
      } else if tail == n {
        table[table[tail].prev] := table[table[tail].prev].(next := NIL);
        tail := table[tail].prev;
      } else {
        table[table[n].prev] := table[table[n].prev].(next := table[n].next);
        table[table[n].next] := table[table[n].next].(prev := table[n].prev);
      }
      table[n] := table[n].(next := NIL, prev := NIL);
    }
  }

  lemma SlotIsListed<K, V>(t: Table<K, V>, n: nat)
    requires Threaded(t) && n < |t.slots| && t.slots[n].k.Live?
    ensures n in t.list
    ensures exists i :: 0 <= i < |t.list| && t.list[i] == n && EntriesOf(t)[i].0 == t.slots[n].k.key
  {
    var i :| 0 <= i < |t.list| && t.list[i] == n;
    EntryIs(t, i);
  }

  lemma EntryIs<K, V>(t: Table<K, V>, i: nat)
    requires Threaded(t) && i < |t.list|
    ensures t.slots[t.list[i]].k == Live(EntriesOf(t)[i].0)
    ensures t.slots[t.list[i]].v == Some(EntriesOf(t)[i].1)
  {
    assert LinkedAt(t.slots, t.list, i);
  }

  lemma OnlyEntry<K, V>(m: Entries<K, V>, i: nat)
    requires Distinct(m) && i < |m|
    ensures Find(m, m[i].0) == i
  {
  }

  lemma NotFound<K, V>(m: Entries<K, V>, k: K)
    requires !Has(m, k)
    ensures Find(m, k) == |m|
  {
  }

  lemma StaysDistinct<K, V>(m: Entries<K, V>, i: nat)
    requires Distinct(m) && i < |m|
    ensures Distinct(Without(m, i))
  {
  }

  lemma NewKeyIsDistinct<K, V>(m: Entries<K, V>, k: K, v: V)
    requires Distinct(m) && !Has(m, k)
    ensures Distinct(m + [(k, v)])
  {
  }

  lemma SameKeys<K, V>(m: Entries<K, V>, i: nat, v: V)
    requires Distinct(m) && i < |m|
    ensures Distinct(m[i := (m[i].0, v)])
  {
  }

  lemma ReplacedIsOk<K(!new), V>(t: Table<K, V>, hash: K -> nat, i: nat, v: V)
    requires Ok(t, hash) && i < |t.list|
    ensures var t' := Replaced(t, t.list[i], v);
            Ok(t', hash) && EntriesOf(t') == EntriesOf(t)[i := (EntriesOf(t)[i].0, v)]
  {
    ReplacedIsThreaded(t, i, v);
    ReplacedIsFound(t, hash, t.list[i], v);
  }

  // After doubling, the entries fit without another resize.
  lemma DoublingIsSafe(count: int, size: int)
    requires WithinLoad(count, size) && size > 0
    ensures WithinLoad(count, 2 * size) && !IsLoaded(count, 2 * size)
  {
  }

  // Copying into a table of some size makes that table resize in its turn exactly when the size is
  // below the load bound.
  lemma NestedResize(count: nat, size: nat)
    ensures (exists i :: 0 <= i < count && IsLoaded(i, size)) <==> !WithinLoad(count, size)
  {
    if !WithinLoad(count, size) {
      assert IsLoaded(count - 1, size);
    }
  }

  // A table whose `size` is smaller than its number of entries cannot have them all in the slots that are looked at: a
  // resize to less than that loses some key.
  method ResizedTooSmall<K(==, !new), V>(t: LhTable<K, V>, newSize: nat) returns (k: K, n: int)
    requires t.Valid() && Distinct(t.Contents()) && 0 < newSize < t.count
    modifies t
    ensures Has(old(t.Contents()), k) && n == NIL
  {
    hide Found, Linked, Listed, EntriesOf;
    t.Resize(newSize);
    ghost var now := t.Now();
    CountIs(now);
    var e := t.head;
    ghost var i := 0;
    HeadIs(now);
    NotAllBelow(now.list, newSize);
    while e < t.size
      invariant t.Now() == now && t.size == newSize
      invariant 0 <= i < |now.list| && e == First(now.list[i..]) && e != NIL
      invariant forall j | 0 <= j < i :: now.list[j] < newSize
      decreases |now.list| - i
    {
      Walk(now, i);
      e := t.table[e].next;
      i := i + 1;
    }
    Walk(now, i);
    k := t.table[e].k.key;
    assert EntriesOf(now)[i].0 == k;
    n := t.LookupEntry(k);
    if n != NIL {
      SlotIsListed(now, n);
      OnlyPlace(now, i, n);
    }
  }

  lemma OnlyPlace<K, V>(t: Table<K, V>, i: nat, n: nat)
    requires Threaded(t) && Distinct(EntriesOf(t)) && i < |t.list| && n < |t.slots|
    requires t.slots[n].k == Live(EntriesOf(t)[i].0)
    ensures n == t.list[i]
  {
    SlotIsListed(t, n);
  }

  lemma {:induction false} NotAllBelow(list: seq<int>, size: nat)
    requires |list| > size
    requires forall i | 0 <= i < |list| :: list[i] >= 0
    requires forall i, j | 0 <= i < j < |list| :: list[i] != list[j]
    ensures exists i :: 0 <= i < |list| && list[i] >= size
  {
    if size == 0 {
      assert list[0] >= size;
    } else if p :| 0 <= p < |list| && list[p] == size - 1 {
      var others := Without(list, p);
      NotAllBelow(others, size - 1);
      var i :| 0 <= i < |others| && others[i] >= size - 1;
      var j := if i < p then i else i + 1;
      assert list[j] == others[i] && list[j] != list[p];
    } else {
      NotAllBelow(list, size - 1);
      var i :| 0 <= i < |list| && list[i] >= size - 1;
      assert list[i] != size - 1;
    }
  }

  lemma LoadGrows(i: int, count: int, size: int)
    requires WithinLoad(count, size) && 0 <= i < count
    ensures !IsLoaded(i, size)
  {
  }

  lemma ShorterLoad(count: int, size: int)
    requires WithinLoad(count, size) && count > 0
    ensures WithinLoad(count - 1, size)
  {
  }

  lemma HeadIs<K(!new), V>(t: Table<K, V>)
    requires Threaded(t)
    ensures t.head == First(t.list[0..])
  {
    assert t.list[0..] == t.list;
  }

  lemma CountIs<K, V>(t: Table<K, V>)
    requires Threaded(t)
    ensures t.count == |EntriesOf(t)| == |t.list|
  {
  }

  // The i-th entry, and where its `next` leads
  lemma Walk<K, V>(t: Table<K, V>, i: nat)
    requires Threaded(t) && i < |t.list|
    ensures var n := First(t.list[i..]);
            && 0 <= n < |t.slots|
            && t.slots[n].k == Live(EntriesOf(t)[i].0) && t.slots[n].v == Some(EntriesOf(t)[i].1)
            && t.slots[n].next == First(t.list[i + 1..])
  {
    LinkOf(t, i);
    EntryIs(t, i);
  }

  lemma WalkEnds<K, V>(t: Table<K, V>, i: nat)
    requires Threaded(t) && i <= |t.list| && First(t.list[i..]) == NIL
    ensures i == |t.list|
  {
  }

  lemma TailIsLive<K, V>(t: Table<K, V>)
    requires Threaded(t)
    ensures t.head == NIL <==> t.tail == NIL
    ensures t.tail != NIL ==> 0 <= t.tail < |t.slots| && t.slots[t.tail].k.Live?
  {
    if t.list != [] {
      assert LinkedAt(t.slots, t.list, |t.list| - 1);
    }
  }

  lemma ShorterIsOk<K(!new), V>(t: Table<K, V>, hash: K -> nat, i: nat)
    requires Ok(t, hash) && i < |t.list|
    ensures Ok(Shorter(t, i), hash) && EntriesOf(Shorter(t, i)) == Without(EntriesOf(t), i)
    ensures |EntriesOf(t)| == |t.list|
    ensures Shorter(t, i).count == t.count - 1 && Shorter(t, i).list == Without(t.list, i)
    ensures var n := t.list[i];
            && 0 <= n < |t.slots| && NIL <= t.slots[n].prev < |t.slots| && NIL <= t.slots[n].next < |t.slots|
            && 0 <= t.head < |t.slots| && 0 <= t.tail < |t.slots|
            && (n == t.tail <==> t.slots[n].next == NIL) && (n == t.head <==> t.slots[n].prev == NIL)
            && Shorter(t, i).slots == Deleted(t, n)
            && Shorter(t, i).head == (if t.slots[n].prev == NIL then t.slots[n].next else t.head)
            && Shorter(t, i).tail == (if t.slots[n].next == NIL then t.slots[n].prev else t.tail)
  {
    LinkOf(t, i);
    assert LinkedAt(t.slots, t.list, i);
    LinksAreInverse(t, t.list[i]);
    ShorterIsThreaded(t, i);
    ShorterIsFound(t, hash, i);
    ShorterLoad(t.count, |t.slots|);
    DeletedSlots(t, i);
    EndsOf(t, i);
    TailIsLive(t);
    hide Deleted, Linked, Listed, Found;
  }

  // Head and tail once the i-th live slot is gone
  lemma EndsOf<K, V>(t: Table<K, V>, i: nat)
    requires Threaded(t) && i < |t.list|
    ensures var n := t.list[i];
            && Shorter(t, i).head == (if t.slots[n].prev == NIL then t.slots[n].next else t.head)
            && Shorter(t, i).tail == (if t.slots[n].next == NIL then t.slots[n].prev else t.tail)
  {
    LinkOf(t, i);
    hide Deleted;
  }

  // ---- every run

  datatype MapOp<K, V> = DoAdd(k: K, v: V) | DoGet(k: K) | DoDelete(k: K)

  function Applied<K(==), V>(m: Entries<K, V>, op: MapOp<K, V>): Entries<K, V> {
    match op
    case DoAdd(k, v) => Put(m, k, v)
    case DoGet(_) => m
    case DoDelete(k) => Remove(m, k)
  }

  // The ordered map after some operations, and what the lookups among them gave
  function MapAfter<K(==), V>(ops: seq<MapOp<K, V>>): Entries<K, V> {
    if ops == [] then [] else Applied(MapAfter(ops[..|ops| - 1]), ops[|ops| - 1])
  }

  function Answers<K(==), V>(ops: seq<MapOp<K, V>>): seq<Option<V>> {
    if ops == [] then []
    else
      var before, op := ops[..|ops| - 1], ops[|ops| - 1];
      Answers(before) + if op.DoGet? then [Get(MapAfter(before), op.k)] else []
  }

  // The number of slots: sixteen to begin with, and twice as many whenever a new key finds 66 in a hundred of them
  // taken
  function SlotsAfter<K(==), V>(ops: seq<MapOp<K, V>>): nat {
    if ops == [] then 16
    else
      var before, op := ops[..|ops| - 1], ops[|ops| - 1];
      var n, m := SlotsAfter(before), MapAfter(before);
      if op.DoAdd? && !Has(m, op.k) && 100 * |m| >= 66 * n then 2 * n else n
  }

  // JSON_OBJECT_DEF_HASH_ENTRIES
  const DEFAULT_ENTRIES := 16

  // Whatever the hash function: a table that grows, and is deleted from, looks up and lists what an
  // insertion-ordered map would.
  method Replay<K(==, !new), V>(hash: K -> nat, ops: seq<MapOp<K, V>>)
    returns (answers: seq<Option<V>>, all: Entries<K, V>, slots: nat)
    ensures answers == Answers(ops)
    ensures all == MapAfter(ops)
    ensures slots == SlotsAfter(ops)
  {
    hide Ok, EntriesOf;
    var t := new LhTable<K, V>(DEFAULT_ENTRIES, hash);
    answers := [];
    var i := 0;
    while i < |ops|
      invariant 0 <= i <= |ops|
      invariant fresh(t) && fresh(t.table) && t.Valid() && Distinct(t.Contents())
      invariant t.Contents() == MapAfter(ops[..i]) && answers == Answers(ops[..i])
      invariant t.size == SlotsAfter(ops[..i])
    {
      assert ops[..i + 1][..i] == ops[..i];
      match ops[i] {
        case DoAdd(k, v) => t.ObjectAdd(k, v);
        case DoGet(k) => var v := t.LookupEx(k); answers := answers + [v];
        case DoDelete(k) => var r, at := t.Delete(k);
      }
      i := i + 1;
    }
    assert ops[..i] == ops;
    all := t.ToList();
    slots := t.size;
  }
}
