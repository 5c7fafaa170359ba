// json_object_object_foreach: a loop over the members of an object whose body changes the object.

module Foreach {
  import opened Options
  import opened OrderedMap
  import opened HashSlots
  import opened LinkHash

  // What a body may do: store a new value for a key that is there, or delete a key.
  datatype Act<K, V> = Change(k: K, v: V) | Delete(k: K)

  type Turn<K, V> = seq<Act<K, V>>

  function Did<K(==), V>(m: Entries<K, V>, a: Act<K, V>): Entries<K, V> {
    match a
    case Change(k, v) => if Has(m, k) then Put(m, k, v) else m
    case Delete(k) => Remove(m, k)
  }

  function After<K(==), V>(m: Entries<K, V>, acts: Turn<K, V>): Entries<K, V> {
    if acts == [] then m else Did(After(m, acts[..|acts| - 1]), acts[|acts| - 1])
  }

  predicate Deletes<K(==), V>(acts: Turn<K, V>, k: K) {
    exists i | 0 <= i < |acts| :: acts[i].Delete? && acts[i].k == k
  }

  // The value that the acts leave for k, which had v
  function LastFor<K(==), V>(acts: Turn<K, V>, k: K, v: V): V {
    if acts == [] then v
    else
      var a := acts[|acts| - 1];
      if a.Change? && a.k == k then a.v else LastFor(acts[..|acts| - 1], k, v)
  }

  // The acts of the i-th turn; a body that has no more turns does nothing.
  function TurnAt<K, V>(turns: seq<Turn<K, V>>, i: nat): Turn<K, V> {
    if i < |turns| then turns[i] else []
  }

  function KeysOf<K, V>(m: Entries<K, V>): (ks: seq<K>)
    ensures |ks| == |m| && forall i | 0 <= i < |m| :: ks[i] == m[i].0
  {
    seq(|m|, i requires 0 <= i < |m| => m[i].0)
  }

  // ---- what the loop is for: each key in turn that is still there

  // What was visited, what is left, and whether no turn deleted the key that came next
  datatype Course<K, V> = Course(visited: Entries<K, V>, left: Entries<K, V>, safe: bool)

  function Sweep<K(==), V>(m: Entries<K, V>, keys: seq<K>, turns: seq<Turn<K, V>>, i: nat): Course<K, V>
    decreases |keys|
  {
    if keys == [] then Course([], m, true)
    else if !Has(m, keys[0]) then Sweep(m, keys[1..], turns, i)
    else
      var rest := Sweep(After(m, TurnAt(turns, i)), keys[1..], turns, i + 1);
      Course([(keys[0], Get(m, keys[0]).value)] + rest.visited, rest.left,
             SparesNext(m, keys[1..], TurnAt(turns, i)) && rest.safe)
  }

  // The keys among these that are there
  function There<K(==), V>(m: Entries<K, V>, keys: seq<K>): seq<K> {
    if keys == [] then [] else (if Has(m, keys[0]) then [keys[0]] else []) + There(m, keys[1..])
  }

  predicate SparesNext<K(==), V>(m: Entries<K, V>, later: seq<K>, acts: Turn<K, V>) {
    var next := There(m, later);
    next != [] ==> !Deletes(acts, next[0])
  }

  // ---- what acts do to a map

  lemma {:induction false} AfterKeeps<K, V>(m: Entries<K, V>, acts: Turn<K, V>, k: K)
    requires Distinct(m)
    ensures Distinct(After(m, acts)) && (Has(After(m, acts), k) <==> Has(m, k) && !Deletes(acts, k))
  {
    if acts != [] {
      var n := |acts| - 1;
      var front, a := acts[..n], acts[n];
      AfterKeeps(m, front, k);
      DidKeeps(After(m, front), a, k);
      DeletesLast(acts, k);
    }
  }

  lemma DeletesLast<K, V>(acts: Turn<K, V>, k: K)
    requires acts != []
    ensures var n := |acts| - 1;
            Deletes(acts, k) <==> Deletes(acts[..n], k) || (acts[n].Delete? && acts[n].k == k)
  {
    var n := |acts| - 1;
    if Deletes(acts[..n], k) {
      var i :| 0 <= i < n && acts[..n][i].Delete? && acts[..n][i].k == k;
      assert acts[i].Delete?;
    }
    if Deletes(acts, k) && !(acts[n].Delete? && acts[n].k == k) {
      var i :| 0 <= i < |acts| && acts[i].Delete? && acts[i].k == k;
      assert acts[..n][i].Delete?;
    }
  }

  lemma DidKeeps<K, V>(m: Entries<K, V>, a: Act<K, V>, k: K)
    requires Distinct(m)
    ensures Distinct(Did(m, a)) && (Has(Did(m, a), k) <==> Has(m, k) && !(a.Delete? && a.k == k))
    ensures Has(Did(m, a), k) ==>
              Get(Did(m, a), k) == if a.Change? && a.k == k then Some(a.v) else Get(m, k)
  {
    var i := Find(m, a.k);
    if i == |m| {
      NotFound(m, a.k);
    } else if a.Change? {
      Changed(m, i, a.v, k);
    } else {
      assert Did(m, a) == Without(m, i);
      hide Did, Find, Has, Get;
      Removed(m, i, k);
    }
  }

  lemma KeyIn<K, V>(m: Entries<K, V>, k: K)
    ensures Has(m, k) <==> Find(m, k) < |m|
  {
    if Has(m, k) {
      var i :| 0 <= i < |m| && m[i].0 == k;
    }
  }

  lemma Changed<K, V>(m: Entries<K, V>, i: nat, v: V, k: K)
    requires Distinct(m) && i < |m|
    ensures var m' := m[i := (m[i].0, v)];
            && Distinct(m') && (Has(m', k) <==> Has(m, k))
            && (Has(m', k) ==> Get(m', k) == if k == m[i].0 then Some(v) else Get(m, k))
  {
    var m' := m[i := (m[i].0, v)];
    assert forall j | 0 <= j < |m| :: m'[j].0 == m[j].0;
    if Has(m, k) {
      var j :| 0 <= j < |m| && m[j].0 == k;
      OnlyEntry(m, j);
      OnlyEntry(m', j);
    }
  }

  lemma Removed<K, V>(m: Entries<K, V>, i: nat, k: K)
    requires Distinct(m) && i < |m|
    ensures Distinct(Without(m, i)) && (Has(Without(m, i), k) <==> Has(m, k) && k != m[i].0)
    ensures Has(Without(m, i), k) ==> Get(Without(m, i), k) == Get(m, k)
  {
    hide Without, Get;
    var m' := Without(m, i);
    StaysDistinct(m, i);
    if Has(m', k) {
      var j :| 0 <= j < |m'| && m'[j].0 == k;
      SameEntry(m, i, j);
    }
    if Has(m, k) && k != m[i].0 {
      var j :| 0 <= j < |m| && m[j].0 == k;
      assert m'[if j < i then j else j - 1] == m[j];
    }
  }

  // An entry that is left when the i-th is gone
  lemma SameEntry<K, V>(m: Entries<K, V>, i: nat, j: nat)
    requires Distinct(m) && i < |m| && j < |Without(m, i)|
    ensures var k := Without(m, i)[j].0; Has(m, k) && k != m[i].0 && Get(Without(m, i), k) == Get(m, k)
  {
    hide Without;
    var j' := if j < i then j else j + 1;
    assert m[j'] == Without(m, i)[j];
    StaysDistinct(m, i);
    OnlyEntry(Without(m, i), j);
    OnlyEntry(m, j');
  }

  // ---- keys in order

  lemma {:induction false} AllThere<K, V>(m: Entries<K, V>, keys: seq<K>)
    requires forall j | 0 <= j < |keys| :: Has(m, keys[j])
    ensures There(m, keys) == keys
  {
    if keys != [] {
      AllThere(m, keys[1..]);
    }
  }

  lemma {:induction false} AllButOne<K, V>(m: Entries<K, V>, keys: seq<K>, i: nat)
    requires i < |keys| && !Has(m, keys[i])
    requires forall j | 0 <= j < |keys| && j != i :: Has(m, keys[j])
    ensures There(m, keys) == Without(keys, i)
  {
    if i == 0 {
      AllThere(m, keys[1..]);
    } else {
      AllButOne(m, keys[1..], i - 1);
      assert Without(keys, i) == [keys[0]] + Without(keys[1..], i - 1);
    }
  }

  lemma HasEach<K, V>(m: Entries<K, V>)
    ensures forall i | 0 <= i < |m| :: Has(m, m[i].0)
  {
  }

  lemma KeysOfDid<K, V>(m: Entries<K, V>, a: Act<K, V>)
    requires Distinct(m)
    ensures KeysOf(Did(m, a)) == There(Did(m, a), KeysOf(m))
  {
    var i, m', keys := Find(m, a.k), Did(m, a), KeysOf(m);
    forall j | 0 <= j < |m|
      ensures Has(m', keys[j]) <==> !(a.Delete? && i == j)
    {
      HasEach(m);
      DidKeeps(m, a, keys[j]);
    }
    if i < |m| && a.Delete? {
      AllButOne(m', keys, i);
      assert m' == Without(m, i);
    } else {
      AllThere(m', keys);
    }
    assert |m'| == |KeysOf(m')|;
  }

  lemma {:induction false} ThereJoins<K, V>(m: Entries<K, V>, a: seq<K>, b: seq<K>)
    ensures There(m, a + b) == There(m, a) + There(m, b)
  {
    if a == [] {
      assert a + b == b && There(m, a) == [];
    } else {
      var head := if Has(m, a[0]) then [a[0]] else [];
      assert There(m, a) == head + There(m, a[1..]);
      assert There(m, a + b) == head + There(m, a[1..] + b) by {
        assert (a + b)[1..] == a[1..] + b && (a + b)[0] == a[0];
      }
      hide There, Has;
      ThereJoins(m, a[1..], b);
      assert head + (There(m, a[1..]) + There(m, b)) == (head + There(m, a[1..])) + There(m, b);
    }
  }

  lemma {:induction false} ThereTwice<K, V>(m: Entries<K, V>, m': Entries<K, V>, keys: seq<K>)
    requires forall k | k in keys :: Has(m', k) ==> Has(m, k)
    ensures There(m', There(m, keys)) == There(m', keys) && |There(m, keys)| <= |keys|
  {
    if keys != [] {
      ThereTwice(m, m', keys[1..]);
      if Has(m, keys[0]) {
        assert ([keys[0]] + There(m, keys[1..]))[1..] == There(m, keys[1..]);
      } else {
        assert There(m, keys) == There(m, keys[1..]) && There(m', keys) == There(m', keys[1..]);
      }
    }
  }

  lemma {:induction false} OrderIsKept<K, V>(m: Entries<K, V>, acts: Turn<K, V>)
    requires Distinct(m)
    ensures KeysOf(After(m, acts)) == There(After(m, acts), KeysOf(m))
  {
    if acts == [] {
      HasEach(m);
      AllThere(m, KeysOf(m));
    } else {
      var n := |acts| - 1;
      var m1, m2 := After(m, acts[..n]), After(m, acts);
      OrderIsKept(m, acts[..n]);
      forall k | k in KeysOf(m)
        ensures Has(m2, k) ==> Has(m1, k)
      {
        AfterKeeps(m, acts[..n], k);
        DidKeeps(m1, acts[n], k);
      }
      AfterIsDistinct(m, acts[..n]);
      ThereTwice(m1, m2, KeysOf(m));
      KeysOfDid(m1, acts[n]);
    }
  }

  lemma {:induction false} AfterIsDistinct<K, V>(m: Entries<K, V>, acts: Turn<K, V>)
    requires Distinct(m)
    ensures Distinct(After(m, acts))
  {
    if acts != [] {
      var n := |acts| - 1;
      AfterIsDistinct(m, acts[..n]);
      DidKeeps(After(m, acts[..n]), acts[n], acts[n].k);
    }
  }

  // ---- keys that are gone are passed over

  lemma {:induction false} SweepPassesOver<K, V>(m: Entries<K, V>, keys: seq<K>, turns: seq<Turn<K, V>>, i: nat)
    requires Distinct(m)
    ensures Sweep(m, keys, turns, i) == Sweep(m, There(m, keys), turns, i)
    decreases |keys|
  {
    if keys != [] {
      var later := keys[1..];
      if !Has(m, keys[0]) {
        SweepPassesOver(m, later, turns, i);
        assert There(m, keys) == There(m, later);
      } else {
        var m', seen := After(m, TurnAt(turns, i)), There(m, later);
        assert There(m, keys) == [keys[0]] + seen && ([keys[0]] + seen)[1..] == seen;
        forall k | k in later
          ensures Has(m', k) ==> Has(m, k)
        {
          AfterKeeps(m, TurnAt(turns, i), k);
        }
        AfterIsDistinct(m, TurnAt(turns, i));
        ThereTwice(m, m', later);
        ThereTwice(m, m, later);
        SweepPassesOver(m', later, turns, i + 1);
        SweepPassesOver(m', seen, turns, i + 1);
      }
    }
  }

  // ---- what the documentation promises, and where it goes wrong

  // The acts of n turns from the i-th
  function Acts<K, V>(turns: seq<Turn<K, V>>, i: nat, n: nat): Turn<K, V>
    decreases n
  {
    if n == 0 then [] else TurnAt(turns, i) + Acts(turns, i + 1, n - 1)
  }

  lemma {:induction false} AfterJoins<K, V>(m: Entries<K, V>, a: Turn<K, V>, b: Turn<K, V>)
    ensures After(m, a + b) == After(After(m, a), b)
  {
    if b == [] {
      assert a + b == a;
    } else {
      assert (a + b)[..|a + b| - 1] == a + b[..|b| - 1];
      AfterJoins(m, a, b[..|b| - 1]);
    }
  }

  // What acts leave: the keys that none of them deletes, in the old order, each with its last value
  lemma {:induction false} AfterIs<K, V>(m: Entries<K, V>, acts: Turn<K, V>, k: K)
    requires Distinct(m)
    ensures var m' := After(m, acts);
            && Distinct(m') && KeysOf(m') == There(m', KeysOf(m))
            && (Has(m', k) <==> Has(m, k) && !Deletes(acts, k))
            && (Has(m', k) ==> Get(m', k) == Some(LastFor(acts, k, Get(m, k).value)))
  {
    OrderIsKept(m, acts);
    AfterKeeps(m, acts, k);
    KeyIn(m, k);
    if acts != [] {
      var n := |acts| - 1;
      AfterIs(m, acts[..n], k);
      DidKeeps(After(m, acts[..n]), acts[n], k);
    }
  }

  // Whatever the body does, what is visited is what the map then holds, and what is left is what all the acts leave.
  lemma {:induction false} CourseIs<K, V>(m: Entries<K, V>, keys: seq<K>, turns: seq<Turn<K, V>>, i: nat)
    ensures var course := Sweep(m, keys, turns, i);
            && course.left == After(m, Acts(turns, i, |course.visited|))
            && forall j | 0 <= j < |course.visited| ::
                 Get(After(m, Acts(turns, i, j)), course.visited[j].0) == Some(course.visited[j].1)
    decreases |keys|
  {
    if keys != [] {
      if !Has(m, keys[0]) {
        CourseIs(m, keys[1..], turns, i);
      } else {
        var course, m' := Sweep(m, keys, turns, i), After(m, TurnAt(turns, i));
        var rest := Sweep(m', keys[1..], turns, i + 1);
        CourseIs(m', keys[1..], turns, i + 1);
        KeyIn(m, keys[0]);
        AfterJoins(m, TurnAt(turns, i), Acts(turns, i + 1, |rest.visited|));
        forall j | 0 <= j < |course.visited|
          ensures Get(After(m, Acts(turns, i, j)), course.visited[j].0) == Some(course.visited[j].1)
        {
          if j > 0 {
            AfterJoins(m, TurnAt(turns, i), Acts(turns, i + 1, j - 1));
            assert course.visited[j] == rest.visited[j - 1];
          }
        }
      }
    }
  }

  // The i-th turn, and those behind it, delete at most the key they are on.
  ghost predicate OwnOnly<K, V>(keys: seq<K>, turns: seq<Turn<K, V>>, i: nat)
    decreases |keys|
  {
    keys == [] ||
    ((forall a | a in TurnAt(turns, i) && a.Delete? :: a.k == keys[0]) && OwnOnly(keys[1..], turns, i + 1))
  }

  lemma OthersStay<K, V>(m: Entries<K, V>, keys: seq<K>, acts: Turn<K, V>)
    requires Distinct(m) && keys != [] && forall j | 0 <= j < |keys| :: Has(m, keys[j])
    requires forall a, b | 0 <= a < b < |keys| :: keys[a] != keys[b]
    requires forall a | a in acts && a.Delete? :: a.k == keys[0]
    ensures Distinct(After(m, acts))
    ensures forall j | 0 <= j < |keys[1..]| ::
              Has(m, keys[1..][j]) && Has(After(m, acts), keys[1..][j]) && !Deletes(acts, keys[1..][j])
  {
    var later := keys[1..];
    hide Has, After;
    AfterIsDistinct(m, acts);
    forall j | 0 <= j < |later|
      ensures Has(m, later[j]) && Has(After(m, acts), later[j]) && !Deletes(acts, later[j])
    {
      assert later[j] == keys[j + 1] && Has(m, keys[j + 1]);
      AfterKeeps(m, acts, later[j]);
    }
  }

  lemma {:induction false} AllVisited<K, V>(m: Entries<K, V>, keys: seq<K>, turns: seq<Turn<K, V>>, i: nat)
    requires Distinct(m) && (forall j | 0 <= j < |keys| :: Has(m, keys[j])) && OwnOnly(keys, turns, i)
    requires forall a, b | 0 <= a < b < |keys| :: keys[a] != keys[b]
    ensures var course := Sweep(m, keys, turns, i); course.safe && KeysOf(course.visited) == keys
    decreases |keys|
  {
    if keys != [] {
      var acts, later := TurnAt(turns, i), keys[1..];
      OthersStay(m, keys, acts);
      AllThere(m, later);
      hide Has, Deletes, After, There, Get, TurnAt, Distinct;
      AllVisited(After(m, acts), later, turns, i + 1);
      var visited := Sweep(After(m, acts), later, turns, i + 1).visited;
      assert KeysOf([(keys[0], Get(m, keys[0]).value)] + visited) == [keys[0]] + KeysOf(visited);
    }
  }

  // A body that deletes at most the key it is on, and stores new values for any keys that are there, is run for every
  // key of the start, in order, with the value that the key has by then.
  lemma EachInTurn<K, V>(m: Entries<K, V>, turns: seq<Turn<K, V>>)
    requires Distinct(m) && OwnOnly(KeysOf(m), turns, 0)
    ensures var course := Sweep(m, KeysOf(m), turns, 0);
            && course.safe && |course.visited| == |m| && course.left == After(m, Acts(turns, 0, |m|))
            && forall i | 0 <= i < |m| :: course.visited[i] == (m[i].0, LastFor(Acts(turns, 0, i), m[i].0, m[i].1))
  {
    var course := Sweep(m, KeysOf(m), turns, 0);
    HasEach(m);
    AllVisited(m, KeysOf(m), turns, 0);
    CourseIs(m, KeysOf(m), turns, 0);
    assert |KeysOf(course.visited)| == |course.visited|;
    forall i | 0 <= i < |m|
      ensures course.visited[i] == (m[i].0, LastFor(Acts(turns, 0, i), m[i].0, m[i].1))
    {
      assert KeysOf(course.visited)[i] == m[i].0;
      ValueThen(m, Acts(turns, 0, i), i, course.visited[i].1);
    }
  }

  lemma ValueThen<K, V>(m: Entries<K, V>, acts: Turn<K, V>, i: nat, v: V)
    requires Distinct(m) && i < |m| && Get(After(m, acts), m[i].0) == Some(v)
    ensures v == LastFor(acts, m[i].0, m[i].1)
  {
    AfterIs(m, acts, m[i].0);
    KeyIn(After(m, acts), m[i].0);
    OnlyEntry(m, i);
  }

  // Of two members the first turn must not delete the second, which the documentation of the loop allows.
  lemma TwoMembers<K, V>(m: Entries<K, V>, turns: seq<Turn<K, V>>)
    requires Distinct(m) && |m| == 2
    ensures Sweep(m, KeysOf(m), turns, 0).safe <==> !Deletes(TurnAt(turns, 0), m[1].0)
  {
    AtTurn(m, 0, turns, 0);
    assert m[0..] == m;
    var m' := After(m, TurnAt(turns, 0));
    assert KeysOf(m[1..]) == [m[1].0];
    assert [m[1].0][1..] == [];
  }

  // What the loop has before it when it is at the p-th entry
  function Onward<K(==), V>(m: Entries<K, V>, p: nat, turns: seq<Turn<K, V>>, i: nat): Course<K, V>
    requires p <= |m|
  {
    Sweep(m, KeysOf(m[p..]), turns, i)
  }

  lemma AtEnd<K, V>(m: Entries<K, V>, turns: seq<Turn<K, V>>, i: nat)
    ensures Onward(m, |m|, turns, i) == Course([], m, true)
  {
  }

  // A pass of the loop at the p-th entry: the next entry is deleted, or the loop goes on from where that is now.
  lemma Passed<K, V>(m: Entries<K, V>, p: nat, turns: seq<Turn<K, V>>, i: nat) returns (p': nat)
    requires Distinct(m) && p < |m|
    ensures p + 1 < |m| && Deletes(TurnAt(turns, i), m[p + 1].0) ==> !Onward(m, p, turns, i).safe
    ensures p + 1 == |m| || !Deletes(TurnAt(turns, i), m[p + 1].0) ==>
              var m' := After(m, TurnAt(turns, i));
              && p' <= |m'| && |m'| - p' < |m| - p
              && (if p + 1 == |m| then p' == |m'| else p' < |m'| && m'[p'].0 == m[p + 1].0)
              && Ahead(Onward(m, p, turns, i), [m[p]], Onward(m', p', turns, i + 1))
  {
    var m', later := After(m, TurnAt(turns, i)), KeysOf(m[p + 1..]);
    AfterIsDistinct(m, TurnAt(turns, i));
    AtTurn(m, p, turns, i);
    p' := |m'|;
    if p + 1 == |m| {
      AtEnd(m', turns, i + 1);
    } else if !Deletes(TurnAt(turns, i), m[p + 1].0) {
      p' := NextPlace(m, p, TurnAt(turns, i));
      SweepPassesOver(m', later, turns, i + 1);
    }
  }

  lemma AtTurn<K, V>(m: Entries<K, V>, p: nat, turns: seq<Turn<K, V>>, i: nat)
    requires Distinct(m) && p < |m|
    ensures var rest := Sweep(After(m, TurnAt(turns, i)), KeysOf(m[p + 1..]), turns, i + 1);
            Onward(m, p, turns, i) ==
              Course([m[p]] + rest.visited, rest.left,
                     (p + 1 == |m| || !Deletes(TurnAt(turns, i), m[p + 1].0)) && rest.safe)
  {
    var keys, later := KeysOf(m[p..]), KeysOf(m[p + 1..]);
    assert keys[0] == m[p].0 && keys[1..] == later;
    OnlyEntry(m, p);
    HasEach(m);
    AllThere(m, later);
  }

  // Where the entry behind the p-th is after some acts
  lemma NextPlace<K, V>(m: Entries<K, V>, p: nat, acts: Turn<K, V>) returns (p': nat)
    requires Distinct(m) && p + 1 < |m| && !Deletes(acts, m[p + 1].0)
    ensures var m' := After(m, acts);
            && p' < |m'| && m'[p'].0 == m[p + 1].0 && |m'| - p' < |m| - p
            && KeysOf(m'[p'..]) == There(m', KeysOf(m[p + 1..]))
  {
    hide After, Deletes;
    var m', before, later := After(m, acts), KeysOf(m[..p + 1]), KeysOf(m[p + 1..]);
    assert KeysOf(m) == before + later;
    OrderIsKept(m, acts);
    ThereJoins(m', before, later);
    HasEach(m);
    AfterKeeps(m, acts, m[p + 1].0);
    p' := |There(m', before)|;
    assert later[0] == m[p + 1].0 && There(m', later)[0] == later[0];
    ThereTwice(m', m', later);
    assert KeysOf(m'[p'..]) == KeysOf(m')[p'..] == There(m', later);
    assert KeysOf(m')[p'] == later[0];
  }

  // What the loop has done and what it has before it make up the whole course.
  ghost predicate Ahead<K, V>(course: Course<K, V>, visited: Entries<K, V>, rest: Course<K, V>) {
    course == Course(visited + rest.visited, rest.left, rest.safe)
  }

  lemma Further<K, V>(course: Course<K, V>, visited: Entries<K, V>, e: (K, V), at: Course<K, V>, rest: Course<K, V>)
    requires Ahead(course, visited, at) && Ahead(at, [e], rest)
    ensures Ahead(course, visited + [e], rest)
  {
    assert visited + ([e] + rest.visited) == (visited + [e]) + rest.visited;
  }

  // ---- the loop

  // What becomes of a slot's key when an act, or some acts, are done to the table
  predicate SlotThen<K(==), V>(was: Key<K>, now: Key<K>, a: Act<K, V>) {
    if !was.Live? || (a.Delete? && a.k == was.key) then !now.Live? else now == was
  }

  predicate SlotAfter<K(==), V>(was: Key<K>, now: Key<K>, acts: Turn<K, V>) {
    if !was.Live? || Deletes(acts, was.key) then !now.Live? else now == was
  }

  lemma SlotGoesOn<K, V>(was: Key<K>, between: Key<K>, now: Key<K>, acts: Turn<K, V>)
    requires acts != [] && SlotAfter(was, between, acts[..|acts| - 1]) && SlotThen(between, now, acts[|acts| - 1])
    ensures SlotAfter(was, now, acts)
  {
    if was.Live? {
      DeletesLast(acts, was.key);
    }
  }

  // The body: each act in turn
  method Perform<K(==, !new), V>(t: LhTable<K, V>, acts: Turn<K, V>)
    requires t.Valid() && Distinct(t.Contents())
    modifies t, t.table
    ensures t.Valid() && Distinct(t.Contents()) && t.table == old(t.table)
    ensures t.Contents() == After(old(t.Contents()), acts)
    ensures forall n | 0 <= n < t.table.Length :: SlotAfter(old(t.table[n].k), t.table[n].k, acts)
  {
    hide Ok, EntriesOf, Distinct, SlotThen, Did;
    ghost var m := t.Contents();
    var i := 0;
    assert acts[..0] == [];
    while i < |acts|
      invariant 0 <= i <= |acts|
      invariant t.Valid() && Distinct(t.Contents()) && t.table == old(t.table)
      invariant t.Contents() == After(m, acts[..i])
      invariant forall n | 0 <= n < t.table.Length :: SlotAfter(old(t.table[n].k), t.table[n].k, acts[..i])
    {
      hide SlotAfter, Deletes;
      ghost var before, done := t.table[..], acts[..i + 1];
      assert done[..i] == acts[..i] && done[i] == acts[i];
      Do(t, acts[i]);
      forall n | 0 <= n < t.table.Length
        ensures SlotAfter(old(t.table[n].k), t.table[n].k, done)
      {
        SlotGoesOn(old(t.table[n].k), before[n].k, t.table[n].k, done);
      }
      i := i + 1;
    }
    assert acts[..i] == acts;
  }

  method Do<K(==, !new), V>(t: LhTable<K, V>, a: Act<K, V>)
    requires t.Valid() && Distinct(t.Contents())
    modifies t, t.table
    ensures t.Valid() && Distinct(t.Contents()) && t.table == old(t.table)
    ensures t.Contents() == Did(old(t.Contents()), a)
    ensures forall n | 0 <= n < t.table.Length :: SlotThen(old(t.table[n].k), t.table[n].k, a)
  {
    hide Found, Linked, Listed, InRange, EntriesOf, Distinct;
    ghost var now := t.Now();
    if a.Change? {
      var n := t.LookupEntry(a.k);
      if n != NIL {
        t.ObjectAdd(a.k, a.v);
      }
    } else {
      var r, at := t.Delete(a.k);
      if r == 0 {
        Tombstone(now, at, a.k);
      } else {
        NotFound(EntriesOf(now), a.k);
        NotInSlots(now, a.k);
      }
      assert forall n | 0 <= n < t.table.Length :: now.slots[n].k == old(t.table[n].k);
      assert r != 0 ==> forall n | 0 <= n < t.table.Length :: t.table[..][n].k == now.slots[n].k;
    }
  }

  // The slot of a key that is being deleted is the only one with that key.
  lemma Tombstone<K, V>(t: Table<K, V>, i: nat, k: K)
    requires Threaded(t) && Distinct(EntriesOf(t)) && i < |t.list| && EntriesOf(t)[i].0 == k
    ensures forall n | 0 <= n < |t.slots| :: t.slots[n].k == Live(k) <==> n == t.list[i]
  {
    EntryIs(t, i);
    forall n | 0 <= n < |t.slots| && t.slots[n].k == Live(k)
      ensures n == t.list[i]
    {
      OnlyPlace(t, i, n);
    }
  }

  lemma NotInSlots<K, V>(t: Table<K, V>, k: K)
    requires Threaded(t) && !Has(EntriesOf(t), k)
    ensures forall n | 0 <= n < |t.slots| :: t.slots[n].k != Live(k)
  {
    forall n | 0 <= n < |t.slots| && t.slots[n].k == Live(k)
      ensures false
    {
      SlotIsListed(t, n);
    }
  }

  lemma Begins<K(!new), V>(t: LhTable<K, V>, turns: seq<Turn<K, V>>)
    requires t.Valid()
    ensures var m := t.Contents();
            && |t.list| == |m| && t.head == First(t.list[0..])
            && Ahead(Sweep(m, KeysOf(m), turns, 0), [], Onward(m, 0, turns, 0))
  {
    CountIs(t.Now());
    HeadIs(t.Now());
    assert t.Contents()[0..] == t.Contents();
  }

  // The slot that `next` of the p-th entry leads to
  lemma NextSlot<K, V>(t: Table<K, V>, p: nat)
    requires Threaded(t) && p < |t.list|
    ensures var n, next := First(t.list[p..]), First(t.list[p + 1..]);
            && 0 <= n < |t.slots| && t.slots[n].next == next && (next == NIL <==> p + 1 == |t.list|)
            && t.slots[n].k == Live(EntriesOf(t)[p].0) && t.slots[n].v == Some(EntriesOf(t)[p].1)
            && (next != NIL ==> 0 <= next < |t.slots| && t.slots[next].k == Live(EntriesOf(t)[p + 1].0))
  {
    Walk(t, p);
    if p + 1 < |t.list| {
      Walk(t, p + 1);
    }
  }

  lemma PlaceOf<K, V>(t: Table<K, V>, i: nat, n: nat)
    requires Threaded(t) && Distinct(EntriesOf(t)) && i < |t.list| && n < |t.slots|
    requires t.slots[n].k == Live(EntriesOf(t)[i].0)
    ensures First(t.list[i..]) == n
  {
    OnlyPlace(t, i, n);
  }

  // The next entry is fetched before the body is run.  `strayed` says that it then was a tombstone: the loop would take
  // that for an entry, with the marker for its key.
  method ForEach<K(==, !new), V>(t: LhTable<K, V>, turns: seq<Turn<K, V>>)
    returns (visited: Entries<K, V>, strayed: bool)
    requires t.Valid() && Distinct(t.Contents())
    modifies t, t.table
    ensures t.Valid() && Distinct(t.Contents()) && t.table == old(t.table)
    ensures var course := Sweep(old(t.Contents()), KeysOf(old(t.Contents())), turns, 0);
            && (strayed <==> !course.safe)
            && (!strayed ==> visited == course.visited && t.Contents() == course.left)
  {
    hide Found, Linked, Listed, InRange, EntriesOf, Sweep, After, Deletes, KeysOf, Distinct;
    ghost var course := Sweep(t.Contents(), KeysOf(t.Contents()), turns, 0);
    visited, strayed := [], false;
    var entry := t.head;
    var i: nat := 0;
    ghost var p: nat := 0;
    Begins(t, turns);
    while entry != NIL
      invariant t.Valid() && Distinct(t.Contents()) && t.table == old(t.table)
      invariant p <= |t.list| == |t.Contents()| && entry == First(t.list[p..])
      invariant Ahead(course, visited, Onward(t.Contents(), p, turns, i))
      decreases |t.list| - p
    {
      ghost var m, now := t.Contents(), t.Now();
      NextSlot(now, p);
      var key, val, entryNext := t.table[entry].k.key, t.table[entry].v.value, t.table[entry].next;
      ghost var q := Passed(m, p, turns, i);
      Perform(t, TurnAt(turns, i));
      CountIs(t.Now());
      if entryNext != NIL && !t.table[entryNext].k.Live? {
        return visited + [(key, val)], true;
      }
      if entryNext == NIL {
        q := |t.list|;
      } else {
        PlaceOf(t.Now(), q, entryNext);
      }
      Further(course, visited, m[p], Onward(m, p, turns, i), Onward(t.Contents(), q, turns, i + 1));
      p, visited := q, visited + [(key, val)];
      entry := entryNext;
      i := i + 1;
    }
    WalkEnds(t.Now(), p);
    AtEnd(t.Contents(), turns, i);
  }
}
