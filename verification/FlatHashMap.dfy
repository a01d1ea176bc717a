/** The theory of the table of src/core/flat_hash_map.h: slots on a ring, probe
    distances, the Robin Hood ordering, and the finite map that a table stands for. */
module RobinHood {
  import opened Machine

  type Key = Word
  const EMPTY: Key := WORD - 1

  datatype Slot<V> = Slot(key: Key, value: V)

  // ----- positions on a ring of c slots

  function Next(i: nat, c: nat): (r: nat)
    requires i < c
    ensures r < c
  {
    if i + 1 == c then 0 else i + 1
  }

  function Prev(i: nat, c: nat): (r: nat)
    requires i < c
    ensures r < c && Next(r, c) == i
  {
    if i == 0 then c - 1 else i - 1
  }

  function Ahead(i: nat, j: nat, c: nat): (r: nat)
    requires i < c && j <= c
    ensures r < c
  {
    if i + j < c then i + j else i + j - c
  }

  /** How many steps lead from `home` forward to `pos`. */
  function Dist(home: nat, pos: nat, c: nat): (r: nat)
    requires home < c && pos < c
    ensures r < c && Ahead(home, r, c) == pos
  {
    if pos >= home then pos - home else pos - home + c
  }

  // ----- tables

  ghost predicate Occupied<V>(s: seq<Slot<V>>, i: nat)
    requires i < |s|
  {
    s[i].key != EMPTY
  }

  function Home(hash: Key -> Key, k: Key, c: nat): (r: nat)
    requires c > 0
    ensures r < c
  {
    hash(k) % c
  }

  ghost function D<V>(hash: Key -> Key, s: seq<Slot<V>>, i: nat): (r: nat)
    requires i < |s|
  {
    Dist(Home(hash, s[i].key, |s|), i, |s|)
  }

  /** The Robin Hood ordering: an entry away from its home follows an entry that is at
      most one step nearer to its own home; in particular distance 0 after an empty slot. */
  ghost predicate OrderedAt<V>(hash: Key -> Key, s: seq<Slot<V>>, i: nat)
    requires i < |s|
  {
    Occupied(s, i) && D(hash, s, i) > 0 ==>
      Occupied(s, Prev(i, |s|)) && D(hash, s, Prev(i, |s|)) + 1 >= D(hash, s, i)
  }

  ghost predicate Ordered<V>(hash: Key -> Key, s: seq<Slot<V>>) {
    forall i | 0 <= i < |s| :: OrderedAt(hash, s, i)
  }

  /** No key is stored twice. */
  ghost predicate Unique<V>(s: seq<Slot<V>>) {
    forall i, j | 0 <= i < j < |s| && s[i].key != EMPTY :: s[i].key != s[j].key
  }

  ghost predicate Has<V>(s: seq<Slot<V>>, k: Key) {
    exists i :: 0 <= i < |s| && s[i].key == k
  }

  /** The finite map a table stands for. */
  ghost function Entries<V>(s: seq<Slot<V>>): (m: map<Key, V>)
  {
    if s == [] then map[]
    else
      var (rest, last) := (s[..|s| - 1], s[|s| - 1]);
      if last.key == EMPTY then Entries(rest) else Entries(rest)[last.key := last.value]
  }

  lemma {:induction false} EntriesKeys<V>(s: seq<Slot<V>>, k: Key)
    ensures k in Entries(s) <==> k != EMPTY && Has(s, k)
  {
    if s != [] {
      var rest := s[..|s| - 1];
      EntriesKeys(rest, k);
      if Has(rest, k) {
        var i :| 0 <= i < |rest| && rest[i].key == k;
        assert s[i].key == k;
      }
      if Has(s, k) {
        var i :| 0 <= i < |s| && s[i].key == k;
        assert i < |rest| ==> rest[i].key == k;
      }
    }
  }

  lemma {:induction false} EntriesValue<V>(s: seq<Slot<V>>, i: nat)
    requires Unique(s) && i < |s| && s[i].key != EMPTY
    ensures s[i].key in Entries(s) && Entries(s)[s[i].key] == s[i].value
  {
    if i < |s| - 1 {
      assert s[|s| - 1].key != s[i].key;
      EntriesValue(s[..|s| - 1], i);
    }
  }

  /** A map that agrees with every slot, and has no further key, is the table's map. */
  lemma EntriesAre<V>(s: seq<Slot<V>>, m: map<Key, V>)
    requires Unique(s)
    requires forall i | 0 <= i < |s| && s[i].key != EMPTY :: s[i].key in m && m[s[i].key] == s[i].value
    requires forall k | k in m :: k != EMPTY && Has(s, k)
    ensures Entries(s) == m
  {
    forall k: Key
      ensures k in Entries(s) <==> k in m
      ensures k in m ==> Entries(s)[k] == m[k]
    {
      EntriesKeys(s, k);
      if k != EMPTY && Has(s, k) {
        var i :| 0 <= i < |s| && s[i].key == k;
        EntriesValue(s, i);
      }
    }
  }

  // ----- what single slot writes do to the map

  /** Writing an entry over a slot drops the slot's old key and binds the new one. */
  lemma EntriesPut<V>(s: seq<Slot<V>>, i: nat, k: Key, v: V, t: seq<Slot<V>>)
    requires Unique(s) && i < |s| && k != EMPTY && t == s[i := Slot(k, v)]
    requires s[i].key == k || !Has(s, k)
    ensures Unique(t) && Entries(t) == (Entries(s) - {s[i].key})[k := v]
  {
    var m := (Entries(s) - {s[i].key})[k := v];
    forall j | 0 <= j < |t| && t[j].key != EMPTY
      ensures t[j].key in m && m[t[j].key] == t[j].value
    {
      if j != i { EntriesValue(s, j); }
    }
    forall x | x in m
      ensures x != EMPTY && Has(t, x)
    {
      if x == k {
        assert t[i].key == k;
      } else {
        EntriesKeys(s, x);
        var j :| 0 <= j < |s| && s[j].key == x;
        assert t[j].key == x;
      }
    }
    EntriesAre(t, m);
  }

  lemma EntriesErase<V>(s: seq<Slot<V>>, i: nat, t: seq<Slot<V>>)
    requires Unique(s) && i < |s| && s[i].key != EMPTY
    requires t == s[i := s[i].(key := EMPTY)]
    ensures Unique(t) && Entries(t) == Entries(s) - {s[i].key}
  {
    var m := Entries(s) - {s[i].key};
    forall j | 0 <= j < |t| && t[j].key != EMPTY
      ensures t[j].key in m && m[t[j].key] == t[j].value
    {
      EntriesValue(s, j);
    }
    forall x | x in m
      ensures x != EMPTY && Has(t, x)
    {
      EntriesKeys(s, x);
      var j :| 0 <= j < |s| && s[j].key == x;
      assert t[j].key == x;
    }
    EntriesAre(t, m);
  }

  /** Moving an entry into an empty slot keeps the map. */
  lemma EntriesMove<V>(s: seq<Slot<V>>, i: nat, j: nat, t: seq<Slot<V>>)
    requires Unique(s) && i < |s| && j < |s|
    requires s[i].key == EMPTY && s[j].key != EMPTY
    requires t == s[i := s[j]][j := s[j].(key := EMPTY)]
    ensures Unique(t) && Entries(t) == Entries(s)
  {
    var u := s[j := s[j].(key := EMPTY)];
    EntriesValue(s, j);
    EntriesErase(s, j, u);
    EntriesKeys(u, s[j].key);
    EntriesKeys(u, EMPTY);
    assert t == u[i := Slot(s[j].key, s[j].value)];
    EntriesPut(u, i, s[j].key, s[j].value, t);
  }

  /** A table never holds more keys than it has slots, and that many exactly when full. */
  lemma {:induction false} EntriesSize<V>(s: seq<Slot<V>>)
    requires Unique(s)
    ensures |Entries(s)| <= |s|
    ensures |Entries(s)| == |s| <==> !Has(s, EMPTY)
  {
    if |s| > 0 {
      var rest, last := s[..|s| - 1], s[|s| - 1];
      EntriesSize(rest);
      EntriesKeys(rest, last.key);
      if Has(rest, EMPTY) {
        var i :| 0 <= i < |rest| && rest[i].key == EMPTY;
        assert s[i].key == EMPTY;
      }
      if Has(s, EMPTY) && last.key != EMPTY {
        var i :| 0 <= i < |s| && s[i].key == EMPTY;
        assert rest[i].key == EMPTY;
      }
    }
  }

  // ----- consequences of the ordering

  /** Walking back from a slot towards the home of its key, distances fall by at most one
      a step, and no slot on the way is empty. */
  lemma {:induction false} WalkBack<V>(hash: Key -> Key, s: seq<Slot<V>>, home: nat, far: nat, near: nat)
    requires Ordered(hash, s) && home < |s| && near <= far < |s|
    requires Occupied(s, Ahead(home, far, |s|)) && D(hash, s, Ahead(home, far, |s|)) >= far
    ensures Occupied(s, Ahead(home, near, |s|)) && D(hash, s, Ahead(home, near, |s|)) >= near
    decreases far - near
  {
    if near < far {
      var i := Ahead(home, far, |s|);
      assert OrderedAt(hash, s, i);
      assert Prev(i, |s|) == Ahead(home, far - 1, |s|);
      WalkBack(hash, s, home, far - 1, near);
    }
  }

  /** A stored key is reached from its home without meeting an empty slot. */
  lemma Reachable<V>(hash: Key -> Key, s: seq<Slot<V>>, q: nat, j: nat)
    requires Ordered(hash, s) && q < |s| && Occupied(s, q) && j <= D(hash, s, q)
    ensures Occupied(s, Ahead(Home(hash, s[q].key, |s|), j, |s|))
    ensures D(hash, s, Ahead(Home(hash, s[q].key, |s|), j, |s|)) >= j
  {
    WalkBack(hash, s, Home(hash, s[q].key, |s|), D(hash, s, q), j);
  }

  /** A probe that met no `key` on its way, and now an empty slot or its start, has missed nothing. */
  lemma Missing<V>(hash: Key -> Key, s: seq<Slot<V>>, key: Key, ctr: nat)
    requires Ordered(hash, s) && key != EMPTY && 0 < |s| && ctr <= |s|
    requires forall j | 0 <= j < ctr :: s[Ahead(Home(hash, key, |s|), j, |s|)].key != key
    requires ctr == |s| || !Occupied(s, Ahead(Home(hash, key, |s|), ctr, |s|))
    ensures !Has(s, key)
  {
    if Has(s, key) {
      var q :| 0 <= q < |s| && s[q].key == key;
      assert q == Ahead(Home(hash, key, |s|), D(hash, s, q), |s|);
      if ctr < |s| {
        Reachable(hash, s, q, ctr);
      }
    }
  }

  // ----- insertion

  /** The one resident that decides what a hopeless insert does: with every slot taken, the
      probe for `key` comes past all residents without a swap exactly when the last resident
      it is compared with, two slots before the home of `key`, is as far from home as it can be. */
  ghost predicate Immovable<V>(hash: Key -> Key, s: seq<Slot<V>>, key: Key)
    requires |s| > 0
  {
    var c := |s|;
    c >= 2 ==>
      var last := Ahead(Home(hash, key, c), c - 2, c);
      Occupied(s, last) && D(hash, s, last) >= c - 2
  }

  /** Nothing has been displaced yet: `key` itself is being carried. */
  ghost predicate Untouched<V>(hash: Key -> Key, s0: seq<Slot<V>>, s: seq<Slot<V>>,
                               key: Key, value: V, k: Key, v: V, dist: nat, ctr: nat)
    requires |s| > 0 && ctr <= |s|
  {
    s == s0 && k == key && v == value && dist == ctr
    && forall j | 0 <= j < ctr :: s[Ahead(Home(hash, key, |s|), j, |s|)].key != key
  }

  /** Some resident `k` is carried in place of `key`, which has found its slot. */
  ghost predicate Displaced<V>(s0: seq<Slot<V>>, s: seq<Slot<V>>, key: Key, value: V, k: Key, v: V) {
    !Has(s0, key) && !Has(s, k) && k in Entries(s0) && Entries(s)[k := v] == Entries(s0)[key := value]
  }

  /** The state of the displacement loop that inserts (key, value) into the table s0. */
  ghost predicate Inserting<V>(hash: Key -> Key, s0: seq<Slot<V>>, s: seq<Slot<V>>,
                               key: Key, value: V, k: Key, v: V, pos: nat, dist: nat, ctr: nat)
  {
    var c := |s|;
    && 0 < c == |s0| && ctr < c && dist <= ctr && key != EMPTY && k != EMPTY
    && pos == Ahead(Home(hash, key, c), ctr, c)
    && dist == Dist(Home(hash, k, c), pos, c)
    && Unique(s0) && Unique(s) && Ordered(hash, s0) && Ordered(hash, s)
    && (forall j | 0 <= j < ctr :: Occupied(s, Ahead(Home(hash, key, c), j, c)))
    && (forall j | ctr <= j < c :: s[Ahead(Home(hash, key, c), j, c)] == s0[Ahead(Home(hash, key, c), j, c)])
    && (dist > 0 ==> Occupied(s, Prev(pos, c)) && D(hash, s, Prev(pos, c)) + 1 >= dist)
    && (Untouched(hash, s0, s, key, value, k, v, dist, ctr) || Displaced(s0, s, key, value, k, v))
    && (Immovable(hash, s0, key) && !Has(s0, EMPTY) ==> Untouched(hash, s0, s, key, value, k, v, dist, ctr))
  }

  lemma InsertingInit<V>(hash: Key -> Key, s0: seq<Slot<V>>, key: Key, value: V)
    requires |s0| > 0 && key != EMPTY && Unique(s0) && Ordered(hash, s0)
    ensures Inserting(hash, s0, s0, key, value, key, value, Home(hash, key, |s0|), 0, 0)
  {
  }

  /** A present key is met before any resident nearer to its home than the probe. */
  lemma PresentAhead<V>(hash: Key -> Key, s: seq<Slot<V>>, key: Key, ctr: nat) returns (q: nat)
    requires Ordered(hash, s) && key != EMPTY && Has(s, key) && ctr < |s|
    requires forall j | 0 <= j < ctr :: s[Ahead(Home(hash, key, |s|), j, |s|)].key != key
    ensures q < |s| && s[q].key == key && ctr <= D(hash, s, q)
    ensures var pos := Ahead(Home(hash, key, |s|), ctr, |s|);
            Occupied(s, pos) && D(hash, s, pos) >= ctr
  {
    q :| 0 <= q < |s| && s[q].key == key;
    assert q == Ahead(Home(hash, key, |s|), D(hash, s, q), |s|);
    Reachable(hash, s, q, ctr);
  }

  /** One turn of the loop when the resident is not nearer to its home. */
  lemma InsertingKeep<V>(hash: Key -> Key, s0: seq<Slot<V>>, s: seq<Slot<V>>,
                         key: Key, value: V, k: Key, v: V, pos: nat, dist: nat, ctr: nat)
    requires Inserting(hash, s0, s, key, value, k, v, pos, dist, ctr)
    requires Occupied(s, pos) && s[pos].key != k && ctr + 1 < |s| && D(hash, s, pos) >= dist
    ensures Inserting(hash, s0, s, key, value, k, v, Next(pos, |s|), dist + 1, ctr + 1)
  {
    var c, home := |s|, Home(hash, key, |s|);
    assert Next(pos, c) == Ahead(home, ctr + 1, c) && Prev(Next(pos, c), c) == pos;
    assert Dist(Home(hash, k, c), Next(pos, c), c) == dist + 1;
    assert Untouched(hash, s0, s, key, value, k, v, dist, ctr) ==>
      Untouched(hash, s0, s, key, value, k, v, dist + 1, ctr + 1);
  }

  lemma OrderedPut<V>(hash: Key -> Key, s: seq<Slot<V>>, pos: nat, k: Key, v: V, dist: nat, t: seq<Slot<V>>)
    requires pos < |s| && k != EMPTY && t == s[pos := Slot(k, v)]
    requires Ordered(hash, s) && dist == Dist(Home(hash, k, |s|), pos, |s|)
    requires dist > 0 ==> Occupied(s, Prev(pos, |s|)) && D(hash, s, Prev(pos, |s|)) + 1 >= dist
    requires Occupied(s, pos) ==> D(hash, s, pos) <= dist
    ensures Ordered(hash, t)
  {
    forall i | 0 <= i < |t|
      ensures OrderedAt(hash, t, i)
    {
      assert OrderedAt(hash, s, i);
      if i == pos {
        assert |t| == 1 || Prev(i, |t|) != pos;
      }
    }
  }

  /** One turn of the loop when the resident is nearer to its home and gives way. */
  lemma InsertingSwap<V>(hash: Key -> Key, s0: seq<Slot<V>>, s: seq<Slot<V>>,
                         key: Key, value: V, k: Key, v: V, pos: nat, dist: nat, ctr: nat, t: seq<Slot<V>>)
    requires Inserting(hash, s0, s, key, value, k, v, pos, dist, ctr)
    requires Occupied(s, pos) && s[pos].key != k && ctr + 1 < |s| && D(hash, s, pos) < dist
    requires t == s[pos := Slot(k, v)]
    ensures Inserting(hash, s0, t, key, value, s[pos].key, s[pos].value, Next(pos, |s|), D(hash, s, pos) + 1, ctr + 1)
  {
    var c, home := |s|, Home(hash, key, |s|);
    OrderedPut(hash, s, pos, k, v, dist, t);
    FirstSwap(hash, s0, s, key, value, k, v, pos, dist, ctr);
    SwapDisplaces(s0, s, key, value, k, v, pos, t);
    RingStep(home, ctr, c);
    RingStep(Home(hash, s[pos].key, c), D(hash, s, pos), c);
    SwapFrame(home, ctr, s, t, Slot(k, v));
    assert forall j | 0 <= j < ctr + 1 :: Occupied(t, Ahead(home, j, c));
  }

  lemma RingStep(home: nat, j: nat, c: nat)
    requires home < c && j + 1 < c
    ensures Next(Ahead(home, j, c), c) == Ahead(home, j + 1, c) && Prev(Ahead(home, j + 1, c), c) == Ahead(home, j, c)
    ensures Dist(home, Ahead(home, j + 1, c), c) == j + 1
  {
  }

  lemma SwapFrame<V>(home: nat, ctr: nat, s: seq<Slot<V>>, t: seq<Slot<V>>, x: Slot<V>)
    requires home < |s| && ctr < |s| && t == s[Ahead(home, ctr, |s|) := x]
    ensures forall j | 0 <= j < |s| && j != ctr :: t[Ahead(home, j, |s|)] == s[Ahead(home, j, |s|)]
  {
  }

  /** A first swap happens only for an absent key, and never in front of an immovable resident. */
  lemma FirstSwap<V>(hash: Key -> Key, s0: seq<Slot<V>>, s: seq<Slot<V>>,
                     key: Key, value: V, k: Key, v: V, pos: nat, dist: nat, ctr: nat)
    requires Inserting(hash, s0, s, key, value, k, v, pos, dist, ctr)
    requires Occupied(s, pos) && ctr + 1 < |s| && D(hash, s, pos) < dist
    ensures Untouched(hash, s0, s, key, value, k, v, dist, ctr) ==> !Has(s0, key)
    ensures !(Immovable(hash, s0, key) && !Has(s0, EMPTY))
  {
    if Untouched(hash, s0, s, key, value, k, v, dist, ctr) {
      if Has(s0, key) {
        var q := PresentAhead(hash, s, key, ctr);
      }
      if Immovable(hash, s0, key) {
        WalkBack(hash, s, Home(hash, key, |s|), |s| - 2, ctr);
      }
    }
  }

  lemma SwapDisplaces<V>(s0: seq<Slot<V>>, s: seq<Slot<V>>, key: Key, value: V, k: Key, v: V, pos: nat, t: seq<Slot<V>>)
    requires Unique(s0) && Unique(s) && pos < |s| == |s0| && k != EMPTY && key != EMPTY && s[pos] == s0[pos]
    requires (s == s0 && k == key && v == value && !Has(s0, key)) || Displaced(s0, s, key, value, k, v)
    requires Occupied(s, pos) && s[pos].key != k && t == s[pos := Slot(k, v)]
    ensures Unique(t) && Displaced(s0, t, key, value, s[pos].key, s[pos].value)
  {
    var r := s[pos];
    EntriesPut(s, pos, k, v, t);
    EntriesValue(s, pos);
    EntriesKeys(t, r.key);
    EntriesKeys(s0, key);
    EntriesKeys(s, k);
    assert Entries(t)[r.key := r.value] == Entries(s)[k := v];
    EntriesValue(s0, pos);
  }

  /** The probe ends at an empty slot or at the key itself: the map gains exactly the binding. */
  lemma InsertingStore<V>(hash: Key -> Key, s0: seq<Slot<V>>, s: seq<Slot<V>>,
                          key: Key, value: V, k: Key, v: V, pos: nat, dist: nat, ctr: nat, t: seq<Slot<V>>)
    requires Inserting(hash, s0, s, key, value, k, v, pos, dist, ctr)
    requires !Occupied(s, pos) || s[pos].key == k
    requires t == s[pos := Slot(k, v)]
    ensures Unique(t) && Ordered(hash, t) && Entries(t) == Entries(s0)[key := value]
    ensures key in Entries(s0) <==> Occupied(s, pos)
    ensures key in Entries(s0) ==> s == s0 && s[pos].key == key && k == key
  {
    EntriesKeys(s0, key);
    if Untouched(hash, s0, s, key, value, k, v, dist, ctr) && Has(s0, key) {
      var q := PresentAhead(hash, s, key, ctr);
    }
    OrderedPut(hash, s, pos, k, v, dist, t);
    EntriesPut(s, pos, k, v, t);
    EntriesKeys(s, EMPTY);
    if Occupied(s, pos) {
      EntriesValue(s, pos);
    }
  }

  /** The probe came back round to where it started: the table was full and the key absent. The
      key stays out when the table is immovable for it; otherwise it ousts a resident. */
  lemma InsertingFail<V>(hash: Key -> Key, s0: seq<Slot<V>>, s: seq<Slot<V>>,
                         key: Key, value: V, k: Key, v: V, pos: nat, dist: nat, ctr: nat)
    requires Inserting(hash, s0, s, key, value, k, v, pos, dist, ctr)
    requires Occupied(s, pos) && s[pos].key != k && ctr + 1 == |s|
    ensures key !in Entries(s0) && |Entries(s0)| == |s0| == |Entries(s)|
    ensures Entries(s) == Entries(s0)[key := value] - {k}
    ensures k == key || k in Entries(s0)
    ensures k == key <==> Immovable(hash, s0, key)
  {
    var c, home := |s|, Home(hash, key, |s|);
    EntriesKeys(s0, key);
    RoundTripFull(hash, s, key, ctr);
    EntriesSize(s);
    EntriesKeys(s, k);
    if Untouched(hash, s0, s, key, value, k, v, dist, ctr) {
      if Has(s0, key) {
        var q := PresentAhead(hash, s, key, ctr);
      }
      assert c >= 2 ==> Prev(pos, c) == Ahead(home, c - 2, c);
      assert Entries(s) == Entries(s0)[key := value] - {key};
    } else {
      assert Entries(s) == Entries(s0)[key := value] - {k};
      EntriesSize(s0);
    }
  }

  lemma RoundTripFull<V>(hash: Key -> Key, s: seq<Slot<V>>, key: Key, ctr: nat)
    requires ctr + 1 == |s|
    requires forall j | 0 <= j <= ctr :: Occupied(s, Ahead(Home(hash, key, |s|), j, |s|))
    ensures !Has(s, EMPTY)
  {
    forall i | 0 <= i < |s|
      ensures s[i].key != EMPTY
    {
      assert Occupied(s, Ahead(Home(hash, key, |s|), Dist(Home(hash, key, |s|), i, |s|), |s|));
    }
  }

  /** Under the identity hash, four entries at home, and four that all have home 0. */
  const AT_HOME: seq<Slot<int>> := [Slot(0, 0), Slot(1, 0), Slot(2, 0), Slot(3, 0)]
  const FROM_ZERO: seq<Slot<int>> := [Slot(0, 0), Slot(4, 0), Slot(8, 0), Slot(12, 0)]

  /** Both ways of failing exist: the first table is not immovable for a fifth key, which therefore
      ousts a resident, and the second is. */
  lemma FullTables()
    ensures IsCapacity(4) && !Has(AT_HOME, EMPTY) && !Has(FROM_ZERO, EMPTY)
    ensures Unique(AT_HOME) && Ordered(k => k, AT_HOME) && !Has(AT_HOME, 4) && !Immovable(k => k, AT_HOME, 4)
    ensures Unique(FROM_ZERO) && Ordered(k => k, FROM_ZERO) && !Has(FROM_ZERO, 16) && Immovable(k => k, FROM_ZERO, 16)
  {
    assert Pow2(2) == 4;
    var hash := (k: Key) => k;
    forall i | 0 <= i < 4
      ensures D(hash, AT_HOME, i) == 0 && D(hash, FROM_ZERO, i) == i
    {
    }
  }

  // ----- deletion with backshift

  /** The ordering while an emptied slot `h` travels forward. */
  ghost predicate OrderedHole<V>(hash: Key -> Key, s: seq<Slot<V>>, h: nat)
    requires h < |s|
  {
    var c := |s|;
    && !Occupied(s, h)
    && (forall i | 0 <= i < c && i != Next(h, c) :: OrderedAt(hash, s, i))
    && (Occupied(s, Next(h, c)) && D(hash, s, Next(h, c)) > 1 ==>
          Occupied(s, Prev(h, c)) && D(hash, s, Prev(h, c)) + 2 >= D(hash, s, Next(h, c)))
  }

  lemma HoleInit<V>(hash: Key -> Key, s: seq<Slot<V>>, h: nat, t: seq<Slot<V>>)
    requires Ordered(hash, s) && h < |s| && Occupied(s, h)
    requires t == s[h := s[h].(key := EMPTY)]
    ensures OrderedHole(hash, t, h)
  {
    var c := |s|;
    forall i | 0 <= i < c && i != Next(h, c)
      ensures OrderedAt(hash, t, i)
    {
      assert OrderedAt(hash, s, i);
      assert Prev(i, c) != h;
    }
    assert OrderedAt(hash, s, h);
    assert OrderedAt(hash, s, Next(h, c));
    assert Prev(Next(h, c), c) == h;
  }

  lemma HoleMove<V>(hash: Key -> Key, s: seq<Slot<V>>, h: nat, t: seq<Slot<V>>)
    requires h < |s| && OrderedHole(hash, s, h)
    requires Occupied(s, Next(h, |s|)) && D(hash, s, Next(h, |s|)) > 0
    requires var n := Next(h, |s|); t == s[h := s[n]][n := s[n].(key := EMPTY)]
    ensures OrderedHole(hash, t, Next(h, |s|))
  {
    var c, n := |s|, Next(h, |s|);
    assert n != h && Prev(n, c) == h;
    assert D(hash, t, h) == D(hash, s, n) - 1;
    forall i | 0 <= i < c && i != Next(n, c)
      ensures OrderedAt(hash, t, i)
    {
      if i != n && i != h {
        assert OrderedAt(hash, s, i);
        assert Prev(i, c) != n && Prev(i, c) != h;
      }
    }
    if Next(n, c) != h {
      assert OrderedAt(hash, s, Next(n, c));
      assert Prev(Next(n, c), c) == n;
    }
  }

  lemma HoleDone<V>(hash: Key -> Key, s: seq<Slot<V>>, h: nat)
    requires h < |s| && OrderedHole(hash, s, h)
    requires !Occupied(s, Next(h, |s|)) || D(hash, s, Next(h, |s|)) == 0
    ensures Ordered(hash, s)
  {
    forall i | 0 <= i < |s|
      ensures OrderedAt(hash, s, i)
    {
    }
  }

  /** The distance an entry adds to the total; empty slots add nothing. */
  ghost function Weight<V>(hash: Key -> Key, s: seq<Slot<V>>, i: nat): nat
    requires i < |s|
  {
    if Occupied(s, i) then D(hash, s, i) else 0
  }

  /** Sum of the probe distances of the first n slots. */
  ghost function TotalDistance<V>(hash: Key -> Key, s: seq<Slot<V>>, n: nat): nat
    requires n <= |s|
  {
    if n == 0 then 0 else TotalDistance(hash, s, n - 1) + Weight(hash, s, n - 1)
  }

  lemma {:induction false} TotalDistanceUpdate<V>(hash: Key -> Key, s: seq<Slot<V>>, i: nat, x: Slot<V>, n: nat)
    requires i < |s| && n <= |s|
    ensures TotalDistance(hash, s[i := x], n) + (if i < n then Weight(hash, s, i) else 0)
         == TotalDistance(hash, s, n) + (if i < n then Weight(hash, s[i := x], i) else 0)
  {
    if n > 0 {
      TotalDistanceUpdate(hash, s, i, x, n - 1);
      assert i != n - 1 ==> Weight(hash, s[i := x], n - 1) == Weight(hash, s, n - 1);
    }
  }

  /** Every backshift brings one entry one step nearer to its home. */
  lemma HoleMoveShortens<V>(hash: Key -> Key, s: seq<Slot<V>>, h: nat, t: seq<Slot<V>>)
    requires h < |s| && !Occupied(s, h)
    requires Occupied(s, Next(h, |s|)) && D(hash, s, Next(h, |s|)) > 0
    requires var n := Next(h, |s|); t == s[h := s[n]][n := s[n].(key := EMPTY)]
    ensures TotalDistance(hash, t, |t|) == TotalDistance(hash, s, |s|) - 1
  {
    var n := Next(h, |s|);
    var u := s[h := s[n]];
    TotalDistanceUpdate(hash, s, h, s[n], |s|);
    TotalDistanceUpdate(hash, u, n, s[n].(key := EMPTY), |s|);
    assert Weight(hash, u, h) == Weight(hash, s, n) - 1;
    assert Weight(hash, u, n) == Weight(hash, s, n);
  }

  // ----- the code's arithmetic

  /** `(pos - hash_(key)) & mask_`, with the subtraction wrapping at 2^64. */
  function ProbeDistance(hash: Key -> Key, key: Key, pos: nat, c: nat): (r: nat)
    requires 0 < c
    ensures r < c
  {
    ((pos - hash(key)) % WORD) % c
  }

  lemma ProbeDistanceIsDist(hash: Key -> Key, key: Key, pos: nat, c: nat)
    requires IsCapacity(c) && pos < c
    ensures ProbeDistance(hash, key, pos, c) == Dist(Home(hash, key, c), pos, c)
  {
    var m := CapacityDivides(c);
    var h := hash(key);
    ModMod(pos - h, c, m);
    assert pos - h == pos - h % c + c * (-(h / c));
    ModShift(pos - h % c, c, -(h / c));
    var d := Dist(h % c, pos, c);
    if pos >= h % c {
      DivModUnique(pos - h % c, c, 0, d);
    } else {
      DivModUnique(pos - h % c, c, -1, d);
    }
  }

  lemma NextIsMasked(pos: nat, c: nat)
    requires pos < c
    ensures (pos + 1) % c == Next(pos, c)
  {
  }
}

/** FlatHashMap of src/core/flat_hash_map.h for uint64_t keys and an arbitrary hash function. */
module FlatHashMaps {
  import opened Machine
  import opened Options
  import opened RobinHood

  class FlatHashMap<V> {
    const capacity: nat
    const hash: Key -> Key
    const slots: array<Slot<V>>
    var size: nat

    ghost predicate Valid()
      reads this, slots
    {
      && IsCapacity(capacity) && slots.Length == capacity
      && Unique(slots[..]) && Ordered(hash, slots[..])
      && size == |Entries(slots[..])|
    }

    ghost function Contents(): map<Key, V>
      reads slots
    {
      Entries(slots[..])
    }

    lemma KeysLegal()
      ensures EMPTY !in Contents()
    {
      EntriesKeys(slots[..], EMPTY);
    }

    /** `zero` is what the fresh pages hold in a slot's value. */
    constructor (capacity: nat, hash: Key -> Key, zero: V)
      requires IsCapacity(capacity)
      ensures Valid() && fresh(slots) && Contents() == map[]
      ensures this.capacity == capacity && this.hash == hash
    {
      this.capacity := capacity;
      this.hash := hash;
      this.slots := new Slot<V>[capacity](_ => Slot(0, zero));
      this.size := 0;
      new;
      for i := 0 to capacity
        invariant slots.Length == capacity && fresh(slots) && size == 0
        invariant forall j | 0 <= j < i :: slots[j].key == EMPTY
      {
        slots[i] := slots[i].(key := EMPTY);
      }
      EntriesAre(slots[..], map[]);
    }

    /** Binds the key when it is present or a slot is free. On a full table that lacks the key it
        fails; `lost` is then the key that is in neither the table nor anyone's hands: the new
        key itself exactly when the table is immovable for it, otherwise an ousted resident. */
    method Insert(key: Key, value: V) returns (ok: bool, ghost lost: Key)
      requires Valid() && key != EMPTY
      modifies this, slots
      ensures Valid()
      ensures ok <==> key in old(Contents()) || |old(Contents())| < capacity
      ensures ok ==> Contents() == old(Contents())[key := value]
      ensures key in old(Contents()) ==>
        exists i :: 0 <= i < capacity && old(slots[i].key) == key && slots[..] == old(slots[..])[i := Slot(key, value)]
      ensures !ok ==> Contents() == old(Contents())[key := value] - {lost}
      ensures !ok ==> size == old(size) && (lost == key || lost in old(Contents()))
      ensures !ok ==> (lost == key <==> Immovable(hash, old(slots[..]), key))
    {
      ghost var s0 := slots[..];
      EntriesKeys(s0, key);
      EntriesSize(s0);
      var found, k, v, pos, dist, ctr := Probe(key, value, s0);
      lost := k;
      if !found {
        InsertingFail(hash, s0, slots[..], key, value, k, v, pos, dist, ctr);
        return false, k;
      }
      Store(s0, key, value, k, v, pos, dist, ctr);
      ok := true;
    }

    /** The displacement loop: it stops at a slot for what it carries, or after a full turn. */
    method Probe(key: Key, value: V, ghost s0: seq<Slot<V>>)
      returns (found: bool, k: Key, v: V, pos: nat, ghost dist: nat, ghost ctr: nat)
      requires IsCapacity(capacity) && slots.Length == capacity && s0 == slots[..] && key != EMPTY
      requires Unique(s0) && Ordered(hash, s0)
      modifies slots
      ensures pos < capacity && Inserting(hash, s0, slots[..], key, value, k, v, pos, dist, ctr)
      ensures found ==> slots[pos].key == EMPTY || slots[pos].key == k
      ensures !found ==> slots[pos].key != EMPTY && slots[pos].key != k && ctr + 1 == capacity
    {
      k, v := key, value;
      pos := hash(key) % capacity;
      var count, distance := 0, 0;
      InsertingInit(hash, s0, key, value);
      while slots[pos].key != EMPTY && slots[pos].key != k
        invariant pos < capacity && Inserting(hash, s0, slots[..], key, value, k, v, pos, distance, count)
        decreases capacity - count
      {
        count := count + 1;
        if count == capacity {
          return false, k, v, pos, distance, count - 1;
        }
        k, v, distance := Pass(s0, key, value, k, v, pos, distance, count - 1);
        pos := (pos + 1) % capacity;
        distance := distance + 1;
      }
      return true, k, v, pos, distance, count;
    }

    /** The probe passes a resident, and trades places with it if the resident is nearer to its home. */
    method Pass(ghost s0: seq<Slot<V>>, ghost key: Key, ghost value: V, k: Key, v: V,
                pos: nat, dist: nat, ghost ctr: nat) returns (k': Key, v': V, dist': nat)
      requires IsCapacity(capacity) && slots.Length == capacity && pos < capacity
      requires Inserting(hash, s0, slots[..], key, value, k, v, pos, dist, ctr)
      requires slots[pos].key != EMPTY && slots[pos].key != k && ctr + 1 < capacity
      modifies slots
      ensures Inserting(hash, s0, slots[..], key, value, k', v', (pos + 1) % capacity, dist' + 1, ctr + 1)
    {
      ghost var s := slots[..];
      ProbeDistanceIsDist(hash, slots[pos].key, pos, capacity);
      NextIsMasked(pos, capacity);
      k', v', dist' := k, v, dist;
      var residentDist := ProbeDistance(hash, slots[pos].key, pos, capacity);
      if residentDist < dist {
        InsertingSwap(hash, s0, s, key, value, k, v, pos, dist, ctr, s[pos := Slot(k, v)]);
        k', v' := slots[pos].key, slots[pos].value;
        slots[pos] := Slot(k, v);
        dist' := residentDist;
        assert slots[..] == s[pos := Slot(k, v)];
      } else {
        InsertingKeep(hash, s0, s, key, value, k, v, pos, dist, ctr);
      }
    }

    /** The end of a successful insertion. */
    method Store(ghost s0: seq<Slot<V>>, ghost key: Key, ghost value: V, k: Key, v: V,
                 pos: nat, ghost dist: nat, ghost ctr: nat)
      requires IsCapacity(capacity) && slots.Length == capacity && pos < capacity
      requires Inserting(hash, s0, slots[..], key, value, k, v, pos, dist, ctr)
      requires slots[pos].key == EMPTY || slots[pos].key == k
      requires size == |Entries(s0)|
      modifies this, slots
      ensures Valid() && Contents() == Entries(s0)[key := value]
      ensures key in Entries(s0) || |Entries(s0)| < capacity
      ensures key in Entries(s0) ==> s0[pos].key == key && slots[..] == s0[pos := Slot(key, value)]
    {
      ghost var s := slots[..];
      ghost var t := s[pos := Slot(k, v)];
      InsertingStore(hash, s0, s, key, value, k, v, pos, dist, ctr, t);
      EntriesSize(t);
      var insertingNew := slots[pos].key == EMPTY;
      slots[pos] := Slot(k, v);
      assert slots[..] == t;
      if insertingNew {
        size := size + 1;
      }
    }

    /** Finds a key exactly when it is present, and then its value. */
    method Find(key: Key) returns (r: Option<V>)
      requires Valid() && key != EMPTY
      ensures r == if key in Contents() then Some(Contents()[key]) else None
    {
      var found, pos := Locate(key);
      if found {
        EntriesValue(slots[..], pos);
        return Some(slots[pos].value);
      }
      return None;
    }

    /** The probe loop shared by find and erase. */
    method Locate(key: Key) returns (found: bool, pos: nat)
      requires Valid() && key != EMPTY
      ensures found <==> key in Contents()
      ensures found ==> pos < capacity && slots[pos].key == key
    {
      ghost var home := Home(hash, key, capacity);
      EntriesKeys(slots[..], key);
      pos := hash(key) % capacity;
      var ctr := 0;
      while slots[pos].key != key
        invariant 0 <= ctr <= capacity && pos < capacity
        invariant pos == Ahead(home, ctr, capacity)
        invariant forall j | 0 <= j < ctr :: slots[Ahead(home, j, capacity)].key != key
        decreases capacity - ctr
      {
        if slots[pos].key == EMPTY || ctr == capacity {
          Missing(hash, slots[..], key, ctr);
          return false, pos;
        }
        NextIsMasked(pos, capacity);
        pos := (pos + 1) % capacity;
        ctr := ctr + 1;
      }
      assert slots[..][pos].key == key;
      found := true;
    }

    /** Removes exactly the given key; the hole is closed by shifting entries back until one
        is at home. The shifting ends on every table, since the total distance falls. */
    method Erase(key: Key) returns (erased: bool)
      requires Valid() && key != EMPTY
      modifies this, slots
      ensures Valid()
      ensures erased <==> key in old(Contents())
      ensures Contents() == old(Contents()) - {key}
    {
      var found, pos := Locate(key);
      if !found {
        return false;
      }
      ghost var s0 := slots[..];
      EntriesValue(s0, pos);
      EntriesErase(s0, pos, s0[pos := s0[pos].(key := EMPTY)]);
      HoleInit(hash, s0, pos, s0[pos := s0[pos].(key := EMPTY)]);
      slots[pos] := slots[pos].(key := EMPTY);
      size := size - 1;
      assert slots[..] == s0[pos := s0[pos].(key := EMPTY)];

      NextIsMasked(pos, capacity);
      var next := (pos + 1) % capacity;
      while slots[next].key != EMPTY
        invariant slots.Length == capacity && pos < capacity && next == Next(pos, capacity)
        invariant Unique(slots[..]) && Entries(slots[..]) == Entries(s0) - {key}
        invariant OrderedHole(hash, slots[..], pos)
        invariant size == old(size) - 1
        decreases TotalDistance(hash, slots[..], capacity)
      {
        ghost var s := slots[..];
        ProbeDistanceIsDist(hash, slots[next].key, next, capacity);
        if ProbeDistance(hash, slots[next].key, next, capacity) == 0 {
          break;
        }
        ghost var t := s[pos := s[next]][next := s[next].(key := EMPTY)];
        EntriesMove(s, pos, next, t);
        HoleMove(hash, s, pos, t);
        HoleMoveShortens(hash, s, pos, t);
        slots[pos] := slots[next];
        slots[next] := slots[next].(key := EMPTY);
        assert slots[..] == t;
        NextIsMasked(next, capacity);
        pos := next;
        next := (next + 1) % capacity;
      }
      HoleDone(hash, slots[..], pos);
      erased := true;
    }
  }
}
