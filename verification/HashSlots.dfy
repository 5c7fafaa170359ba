// The slots of a linked hash table as values: open addressing with tombstones, and a doubly linked
// list threaded through the live slots in the order of insertion.

module HashSlots {
  import opened Options
  import opened OrderedMap

  // LH_EMPTY, LH_FREED, or a key
  datatype Key<+K> = Empty | Freed | Live(key: K)

  // struct lh_entry; -1 is the NULL pointer, other links are positions in the table
  datatype Entry<+K, +V> = Entry(k: Key<K>, v: Option<V>, next: int, prev: int)

  const NIL: int := -1

  // struct lh_table, with the positions of its live slots from head to tail
  datatype Table<K, V> = Table(slots: seq<Entry<K, V>>, head: int, tail: int, count: int, ghost list: seq<int>)

  // ---- probing

  // The slot looked at after j steps
  function At(start: nat, j: nat, size: nat): (n: nat)
    requires start < size && j < size
    ensures n < size
  {
    if start + j < size then start + j else start + j - size
  }

  // The number of steps to slot n
  function Dist(start: nat, n: nat, size: nat): (j: nat)
    requires start < size && n < size
    ensures j < size && At(start, j, size) == n
  {
    if start <= n then n - start else n + size - start
  }

  ghost predicate Reachable<K, V>(slots: seq<Entry<K, V>>, start: nat, n: nat)
    requires start < |slots| && n < |slots|
  {
    forall j | 0 <= j < Dist(start, n, |slots|) :: slots[At(start, j, |slots|)].k != Empty
  }

  // ---- the list

  ghost predicate InRange(list: seq<int>, size: nat) {
    && (forall i | 0 <= i < |list| :: 0 <= list[i] < size)
    && (forall i, j | 0 <= i < j < |list| :: list[i] != list[j])
  }

  function First(list: seq<int>): int {
    if list == [] then NIL else list[0]
  }

  function Last(list: seq<int>): int {
    if list == [] then NIL else list[|list| - 1]
  }

  function NextIn(list: seq<int>, i: int): int {
    if 0 <= i + 1 < |list| then list[i + 1] else NIL
  }

  function PrevIn(list: seq<int>, i: int): int {
    if 0 < i <= |list| then list[i - 1] else NIL
  }

  // The slot at the i-th place of the list
  ghost predicate LinkedAt<K, V>(slots: seq<Entry<K, V>>, list: seq<int>, i: nat)
    requires i < |list| && 0 <= list[i] < |slots|
  {
    var e := slots[list[i]];
    e.k.Live? && e.v.Some? && e.next == NextIn(list, i) && e.prev == PrevIn(list, i)
  }

  ghost predicate Linked<K, V>(slots: seq<Entry<K, V>>, list: seq<int>)
    requires InRange(list, |slots|)
  {
    forall i | 0 <= i < |list| :: LinkedAt(slots, list, i)
  }

  ghost predicate Listed<K, V>(slots: seq<Entry<K, V>>, list: seq<int>) {
    forall n | 0 <= n < |slots| && slots[n].k.Live? :: n in list
  }

  ghost predicate Threaded<K, V>(t: Table<K, V>) {
    && InRange(t.list, |t.slots|) && Linked(t.slots, t.list) && Listed(t.slots, t.list)
    && t.head == First(t.list) && t.tail == Last(t.list) && t.count == |t.list|
  }

  ghost predicate Found<K(!new), V>(t: Table<K, V>, hash: K -> nat) {
    |t.slots| > 0 &&
    forall n | 0 <= n < |t.slots| && t.slots[n].k.Live? ::
      Reachable(t.slots, hash(t.slots[n].k.key) % |t.slots|, n)
  }

  // count >= size * LH_LOAD_FACTOR, with the factor 0.66 as 66 / 100
  predicate IsLoaded(count: int, size: int) {
    count * 100 >= size * 66
  }

  // What every insertion leaves behind
  predicate WithinLoad(count: int, size: int) {
    count == 0 || !IsLoaded(count - 1, size)
  }

  ghost predicate Ok<K(!new), V>(t: Table<K, V>, hash: K -> nat) {
    Threaded(t) && Found(t, hash) && WithinLoad(t.count, |t.slots|)
  }

  // The live entries from head to tail
  ghost function EntriesOf<K, V>(t: Table<K, V>): (m: Entries<K, V>)
    requires Threaded(t)
    ensures |m| == |t.list|
  {
    seq(|t.list|, i requires 0 <= i < |t.list| => EntryAt(t, i))
  }

  ghost function EntryAt<K, V>(t: Table<K, V>, i: nat): (K, V)
    requires Threaded(t) && i < |t.list|
  {
    assert LinkedAt(t.slots, t.list, i);
    (t.slots[t.list[i]].k.key, t.slots[t.list[i]].v.value)
  }

  // prev and next undo each other along the list.
  lemma LinksAreInverse<K, V>(t: Table<K, V>, n: int)
    requires Threaded(t) && 0 <= n < |t.slots| && t.slots[n].k.Live?
    ensures t.slots[n].next == NIL <==> n == t.tail
    ensures t.slots[n].prev == NIL <==> n == t.head
    ensures t.slots[n].next != NIL ==> 0 <= t.slots[n].next < |t.slots| && t.slots[t.slots[n].next].prev == n
    ensures t.slots[n].prev != NIL ==> 0 <= t.slots[n].prev < |t.slots| && t.slots[t.slots[n].prev].next == n
  {
    var i :| 0 <= i < |t.list| && t.list[i] == n;
    assert LinkedAt(t.slots, t.list, i);
    if i + 1 < |t.list| {
      assert LinkedAt(t.slots, t.list, i + 1);
    }
    if i > 0 {
      assert LinkedAt(t.slots, t.list, i - 1);
    }
  }

  // ---- there is room

  function Without<T>(s: seq<T>, i: nat): (r: seq<T>)
    requires i < |s|
    ensures |r| == |s| - 1
    ensures forall j | 0 <= j < |r| :: r[j] == s[if j < i then j else j + 1]
  {
    s[..i] + s[i + 1..]
  }

  lemma {:induction false} Elements(list: seq<int>, size: nat)
    requires forall n | 0 <= n < size :: n in list
    ensures |list| >= size
  {
    if size > 0 {
      assert size - 1 in list;
      var p :| 0 <= p < |list| && list[p] == size - 1;
      forall n | 0 <= n < size - 1 ensures n in Without(list, p) {
        assert n in list;
        var q :| 0 <= q < |list| && list[q] == n;
        assert Without(list, p)[if q < p then q else q - 1] == n;
      }
      Elements(Without(list, p), size - 1);
    }
  }

  // A table that is not full has a slot for a new key within `size` steps of any start.
  lemma RoomAhead<K, V>(t: Table<K, V>, start: nat)
    requires Threaded(t) && start < |t.slots| && t.count < |t.slots|
    ensures exists j :: 0 <= j < |t.slots| && !t.slots[At(start, j, |t.slots|)].k.Live?
  {
    var size := |t.slots|;
    if forall j | 0 <= j < size :: t.slots[At(start, j, size)].k.Live? {
      forall n | 0 <= n < size ensures n in t.list {
        assert t.slots[At(start, Dist(start, n, size), size)].k.Live?;
      }
      Elements(t.list, size);
      assert false;
    }
  }

  // ---- looking up

  // After j steps from start nothing but other keys and tombstones has been seen.
  ghost predicate Missed<K(!new), V>(t: Table<K, V>, start: nat, k: K, j: int)
    requires start < |t.slots| && j <= |t.slots|
  {
    forall i | 0 <= i < j ::
      t.slots[At(start, i, |t.slots|)].k != Empty && t.slots[At(start, i, |t.slots|)].k != Live(k)
  }

  // A probe that met an empty slot, or went all the way round, has not missed the key.
  lemma MissedAltogether<K(!new), V>(t: Table<K, V>, hash: K -> nat, k: K, j: nat)
    requires Threaded(t) && Found(t, hash) && j <= |t.slots|
    requires var start := hash(k) % |t.slots|;
             Missed(t, start, k, j) && (j < |t.slots| ==> t.slots[At(start, j, |t.slots|)].k == Empty)
    ensures !Has(EntriesOf(t), k)
  {
    forall i | 0 <= i < |t.list| ensures EntriesOf(t)[i].0 != k {
      MissedAt(t, hash, k, j, i);
    }
  }

  lemma MissedAt<K(!new), V>(t: Table<K, V>, hash: K -> nat, k: K, j: nat, i: nat)
    requires Threaded(t) && Found(t, hash) && j <= |t.slots| && i < |t.list|
    requires var start := hash(k) % |t.slots|;
             Missed(t, start, k, j) && (j < |t.slots| ==> t.slots[At(start, j, |t.slots|)].k == Empty)
    ensures EntriesOf(t)[i].0 != k
  {
    assert LinkedAt(t.slots, t.list, i);
    var size, n := |t.slots|, t.list[i];
    var start := hash(t.slots[n].k.key) % size;
    assert Reachable(t.slots, start, n) && At(start, Dist(start, n, size), size) == n;
  }

  // ---- adding

  // The new tail
  ghost function Added<K, V>(t: Table<K, V>, n: nat, k: K, v: V): Table<K, V>
    requires n < |t.slots| && (t.tail == NIL || 0 <= t.tail < |t.slots|)
  {
    var slots := t.slots[n := Entry(Live(k), Some(v), NIL, t.tail)];
    Table(
      if t.tail == NIL || t.tail == n then slots else slots[t.tail := slots[t.tail].(next := n)],
      if t.tail == NIL then n else t.head, n, t.count + 1, t.list + [n])
  }

  lemma AddedIsThreaded<K, V>(t: Table<K, V>, n: nat, k: K, v: V)
    requires Threaded(t) && n < |t.slots| && !t.slots[n].k.Live?
    ensures Threaded(Added(t, n, k, v))
    ensures EntriesOf(Added(t, n, k, v)) == EntriesOf(t) + [(k, v)]
  {
    var t' := Added(t, n, k, v);
    forall i | 0 <= i < |t.list| ensures t.list[i] != n {
      assert LinkedAt(t.slots, t.list, i);
    }
    AddedSlots(t, n, k, v);
    hide Added;
    forall i | 0 <= i < |t'.list| ensures LinkedAt(t'.slots, t'.list, i) {
      if i < |t.list| {
        assert LinkedAt(t.slots, t.list, i);
      }
    }
    assert forall m | 0 <= m < |t'.slots| && t'.slots[m].k.Live? :: m == n || m in t.list;
    assert t'.list[|t.list|] == n;
    forall i | 0 <= i < |t'.list| ensures EntriesOf(t')[i] == (EntriesOf(t) + [(k, v)])[i] {
      assert LinkedAt(t'.slots, t'.list, i);
    }
  }

  lemma AddedSlots<K, V>(t: Table<K, V>, n: nat, k: K, v: V)
    requires Threaded(t) && n < |t.slots| && n !in t.list
    ensures var t' := Added(t, n, k, v);
            && |t'.slots| == |t.slots| && t'.list == t.list + [n] && t'.count == t.count + 1
            && t'.head == First(t'.list) && t'.tail == Last(t'.list)
            && t'.slots[n] == Entry(Live(k), Some(v), NIL, Last(t.list))
            && forall m | 0 <= m < |t.slots| && m != n ::
                 t'.slots[m] == t.slots[m].(next := if m == Last(t.list) then n else t.slots[m].next)
  {
    assert t.list != [] ==> t.list[|t.list| - 1] in t.list;
  }

  lemma AddedIsFound<K(!new), V>(t: Table<K, V>, hash: K -> nat, n: nat, k: K, v: V)
    requires Threaded(t) && Found(t, hash) && n < |t.slots| && !t.slots[n].k.Live?
    requires Reachable(t.slots, hash(k) % |t.slots|, n)
    ensures Found(Added(t, n, k, v), hash)
  {
    var t' := Added(t, n, k, v);
    assert forall m | 0 <= m < |t.slots| :: t.slots[m].k != Empty ==> t'.slots[m].k != Empty;
    forall m | 0 <= m < |t'.slots| && t'.slots[m].k.Live?
      ensures Reachable(t'.slots, hash(t'.slots[m].k.key) % |t'.slots|, m)
    {
      if m != n {
        assert t.slots[m].k == t'.slots[m].k;
        assert Reachable(t.slots, hash(t.slots[m].k.key) % |t.slots|, m);
      }
    }
  }

  // ---- deleting

  // A tombstone in the place of slot n
  function Deleted<K, V>(t: Table<K, V>, n: nat): seq<Entry<K, V>>
    requires n < |t.slots| && NIL <= t.slots[n].prev < |t.slots| && NIL <= t.slots[n].next < |t.slots|
  {
    var p, q := t.slots[n].prev, t.slots[n].next;
    var s1 := if p == NIL then t.slots else t.slots[p := t.slots[p].(next := q)];
    var s2 := if q == NIL then s1 else s1[q := s1[q].(prev := p)];
    s2[n := Entry(Freed, None, NIL, NIL)]
  }

  lemma LinkOf<K, V>(t: Table<K, V>, i: nat)
    requires Threaded(t) && i < |t.list|
    ensures var n := t.list[i];
            && t.slots[n].prev == PrevIn(t.list, i) && t.slots[n].next == NextIn(t.list, i)
            && NIL <= t.slots[n].prev < |t.slots| && NIL <= t.slots[n].next < |t.slots|
  {
    assert LinkedAt(t.slots, t.list, i);
  }

  // The table without the i-th live slot
  ghost function Shorter<K, V>(t: Table<K, V>, i: nat): Table<K, V>
    requires Threaded(t) && i < |t.list|
  {
    LinkOf(t, i);
    var list := Without(t.list, i);
    Table(Deleted(t, t.list[i]), First(list), Last(list), t.count - 1, list)
  }

  lemma DeletedSlots<K, V>(t: Table<K, V>, i: nat)
    requires Threaded(t) && i < |t.list|
    ensures var n, slots := t.list[i], Shorter(t, i).slots;
            && |slots| == |t.slots| && slots[n] == Entry(Freed, None, NIL, NIL)
            && forall m | 0 <= m < |t.slots| && m != n ::
                 slots[m] == t.slots[m].(
                   next := if m == PrevIn(t.list, i) then NextIn(t.list, i) else t.slots[m].next,
                   prev := if m == NextIn(t.list, i) then PrevIn(t.list, i) else t.slots[m].prev)
  {
    LinkOf(t, i);
  }

  lemma ShorterIsLinked<K, V>(t: Table<K, V>, i: nat, j: nat)
    requires Threaded(t) && i < |t.list| && j < |t.list| - 1
    ensures var t' := Shorter(t, i);
            |t'.list| == |t.list| - 1 && 0 <= t'.list[j] < |t'.slots| && LinkedAt(t'.slots, t'.list, j)
  {
    var o := if j < i then j else j + 1;
    assert LinkedAt(t.slots, t.list, o);
    DeletedSlots(t, i);
    hide Deleted;
    assert Shorter(t, i).list[j] == t.list[o];
  }

  lemma ShorterIsThreaded<K, V>(t: Table<K, V>, i: nat)
    requires Threaded(t) && i < |t.list|
    ensures Threaded(Shorter(t, i))
    ensures EntriesOf(Shorter(t, i)) == Without(EntriesOf(t), i)
  {
    var t' := Shorter(t, i);
    DeletedSlots(t, i);
    hide Deleted, LinkedAt;
    assert InRange(t'.list, |t'.slots|);
    forall j | 0 <= j < |t'.list| ensures LinkedAt(t'.slots, t'.list, j) {
      ShorterIsLinked(t, i, j);
    }
    ShorterIsListed(t, i);
    ShorterEntries(t, i);
  }

  lemma ShorterIsListed<K, V>(t: Table<K, V>, i: nat)
    requires Threaded(t) && i < |t.list|
    ensures Listed(Shorter(t, i).slots, Shorter(t, i).list)
  {
    var t' := Shorter(t, i);
    DeletedSlots(t, i);
    hide Deleted, LinkedAt;
    forall m | 0 <= m < |t'.slots| && t'.slots[m].k.Live? ensures m in t'.list {
      var j :| 0 <= j < |t.list| && t.list[j] == m;
      assert t'.list[if j < i then j else j - 1] == m;
    }
  }

  lemma ShorterEntries<K, V>(t: Table<K, V>, i: nat)
    requires Threaded(t) && i < |t.list| && Threaded(Shorter(t, i))
    ensures EntriesOf(Shorter(t, i)) == Without(EntriesOf(t), i)
  {
    var t' := Shorter(t, i);
    DeletedSlots(t, i);
    hide Deleted;
    forall j | 0 <= j < |t'.list| ensures EntriesOf(t')[j] == Without(EntriesOf(t), i)[j] {
      assert LinkedAt(t.slots, t.list, if j < i then j else j + 1);
    }
  }

  lemma ShorterIsFound<K(!new), V>(t: Table<K, V>, hash: K -> nat, i: nat)
    requires Threaded(t) && Found(t, hash) && i < |t.list|
    ensures Found(Shorter(t, i), hash)
  {
    DeletedSlots(t, i);
    hide Deleted;
    var t' := Shorter(t, i);
    assert forall m | 0 <= m < |t.slots| :: t.slots[m].k != Empty ==> t'.slots[m].k != Empty;
    forall m | 0 <= m < |t'.slots| && t'.slots[m].k.Live?
      ensures Reachable(t'.slots, hash(t'.slots[m].k.key) % |t'.slots|, m)
    {
      assert Reachable(t.slots, hash(t.slots[m].k.key) % |t.slots|, m);
    }
  }

  // ---- replacing a value

  ghost function Replaced<K, V>(t: Table<K, V>, n: nat, v: V): Table<K, V>
    requires n < |t.slots|
  {
    t.(slots := t.slots[n := t.slots[n].(v := Some(v))])
  }

  lemma ReplacedIsThreaded<K(!new), V>(t: Table<K, V>, i: nat, v: V)
    requires Threaded(t) && i < |t.list|
    ensures var t' := Replaced(t, t.list[i], v);
            Threaded(t') && EntriesOf(t') == EntriesOf(t)[i := (EntriesOf(t)[i].0, v)]
  {
    var t' := Replaced(t, t.list[i], v);
    forall j | 0 <= j < |t'.list| ensures LinkedAt(t'.slots, t'.list, j) {
      assert LinkedAt(t.slots, t.list, j);
    }
    assert LinkedAt(t.slots, t.list, i);
  }

  lemma ReplacedIsFound<K(!new), V>(t: Table<K, V>, hash: K -> nat, n: nat, v: V)
    requires Found(t, hash) && n < |t.slots|
    ensures Found(Replaced(t, n, v), hash)
  {
    var t' := Replaced(t, n, v);
    forall m | 0 <= m < |t'.slots| && t'.slots[m].k.Live?
      ensures Reachable(t'.slots, hash(t'.slots[m].k.key) % |t'.slots|, m)
    {
      assert Reachable(t.slots, hash(t.slots[m].k.key) % |t.slots|, m);
    }
  }
}
