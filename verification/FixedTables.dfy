/** The tables of lualib-src/pbc/src/map.c that are filled once and never grow: the hash form
    of `struct map_ip`, and `struct map_si`. Both put n entries in n slots. */
module FixedTables {
  import opened Words
  import opened Chains
  import opened Copies

  datatype Slot<+K, +V> = Slot(key: Option<K>, value: Option<V>, next: nat)

  function Cells<K, V>(slots: seq<Slot<K, V>>): (t: seq<Cell<K>>)
    ensures |t| == |slots|
    ensures forall i {:trigger t[i]} {:trigger slots[i]} :: 0 <= i < |t| ==> t[i] == Cell(slots[i].key, slots[i].next)
  {
    seq(|slots|, i requires 0 <= i < |slots| => Cell(slots[i].key, slots[i].next))
  }

  predicate DistinctKeys<K(==), V>(table: seq<(K, V)>) {
    forall i, j :: 0 <= i < j < |table| ==> table[i].0 != table[j].0
  }

  /** The association list as a map; of entries with one key the last one counts. */
  function MapOf<K, V>(table: seq<(K, V)>): map<K, V> {
    if table == [] then map[]
    else MapOf(table[..|table| - 1])[table[|table| - 1].0 := table[|table| - 1].1]
  }

  /** The same, but of entries with one key the first one counts. */
  function FirstMapOf<K, V>(table: seq<(K, V)>): map<K, V> {
    if table == [] then map[]
    else
      var m, e := FirstMapOf(table[..|table| - 1]), table[|table| - 1];
      if e.0 in m then m else m[e.0 := e.1]
  }

  /** Both have the keys of the list, with values of the list. */
  lemma {:induction false} MapsFromList<K, V>(table: seq<(K, V)>)
    ensures MapOf(table).Keys == FirstMapOf(table).Keys
    ensures forall i :: 0 <= i < |table| ==> table[i].0 in MapOf(table)
    ensures forall k :: k in MapOf(table) ==> (k, MapOf(table)[k]) in table && (k, FirstMapOf(table)[k]) in table
  {
    if table != [] {
      var n := |table| - 1;
      MapsFromList(table[..n]);
      forall i | 0 <= i < |table| ensures table[i].0 in MapOf(table) {
        if i < n { assert table[..n][i] == table[i]; }
      }
      forall k | k in MapOf(table) ensures (k, MapOf(table)[k]) in table && (k, FirstMapOf(table)[k]) in table {
        assert table[n] in table;
        if k in MapOf(table[..n]) { assert forall v :: (k, v) in table[..n] ==> (k, v) in table; }
      }
    }
  }

  lemma {:induction false} MapOfMeaning<K, V>(table: seq<(K, V)>)
    requires DistinctKeys(table)
    ensures forall i :: 0 <= i < |table| ==> table[i].0 in MapOf(table) && MapOf(table)[table[i].0] == table[i].1
    ensures forall k :: k in MapOf(table) ==> (k, MapOf(table)[k]) in table
    ensures FirstMapOf(table) == MapOf(table)
  {
    if table != [] {
      var n := |table| - 1;
      MapOfMeaning(table[..n]);
      forall i | 0 <= i < n ensures table[i].0 in MapOf(table) && MapOf(table)[table[i].0] == table[i].1 {
        assert table[..n][i] == table[i];
      }
      forall k | k in MapOf(table) ensures (k, MapOf(table)[k]) in table {
        if k != table[n].0 { assert (k, MapOf(table)[k]) in table[..n]; }
      }
      assert table[n].0 !in MapOf(table[..n]);
    }
  }

  lemma {:induction false} MapOfSize<K, V>(table: seq<(K, V)>)
    requires DistinctKeys(table)
    ensures |MapOf(table)| == |table|
  {
    if table != [] {
      var n := |table| - 1;
      MapOfSize(table[..n]);
      MapOfMeaning(table[..n]);
      assert table[n].0 !in MapOf(table[..n]);
    }
  }

  /** An association list lists a map when it has the map's entries and keys. */
  lemma MapOfIs<K, V>(table: seq<(K, V)>, m: map<K, V>)
    requires DistinctKeys(table)
    requires forall i :: 0 <= i < |table| ==> table[i].0 in m && m[table[i].0] == table[i].1
    requires forall k :: k in m ==> (k, m[k]) in table
    ensures MapOf(table) == m && |table| == |m|
  {
    MapOfMeaning(table);
    MapOfSize(table);
    forall k | k in m ensures k in MapOf(table) && MapOf(table)[k] == m[k] {
      var i :| 0 <= i < |table| && table[i] == (k, m[k]);
    }
    assert MapOf(table) == m;
  }

  /** Chains that lead from home to key, and nothing in the slots without a key. */
  ghost predicate Keeps<K(!new), V>(slots: seq<Slot<K, V>>, hash: K -> nat, s: Layout<K>) {
    && |slots| > 0
    && Kept(Cells(slots), hash, s)
    && (forall i {:trigger slots[i]} :: 0 <= i < |slots| ==>
          if slots[i].key.None? then slots[i] == Slot(None, None, 0) else slots[i].value.Some?)
  }

  /** The map gives each key the value of its first entry. */
  ghost predicate Records<K(!new), V>(slots: seq<Slot<K, V>>, first: map<K, nat>, m: map<K, V>) {
    && first.Keys == m.Keys
    && (forall k {:trigger k in m} :: k in m ==>
          first[k] < |slots| && slots[first[k]].key == Some(k) && slots[first[k]].value == Some(m[k]))
  }

  /** No key is held twice. */
  ghost predicate NoTwins<K(!new), V>(slots: seq<Slot<K, V>>, first: map<K, nat>) {
    forall i {:trigger slots[i]} :: 0 <= i < |slots| && slots[i].key.Some? ==>
      slots[i].key.value in first && first[slots[i].key.value] == i
  }

  ghost predicate HomeHas<K(!new), V>(slots: seq<Slot<K, V>>, hash: K -> nat, k: K) {
    |slots| > 0 && slots[hash(k) % |slots|].key == Some(k)
  }

  /** The map is that of the list: of several entries with one key the first one counts if it is in its
      home slot, and the last one otherwise. */
  ghost predicate Chosen<K(!new), V>(slots: seq<Slot<K, V>>, hash: K -> nat, m: map<K, V>, table: seq<(K, V)>) {
    && m.Keys == MapOf(table).Keys == FirstMapOf(table).Keys
    && forall k :: k in m ==> m[k] == if HomeHas(slots, hash, k) then FirstMapOf(table)[k] else MapOf(table)[k]
  }

  /** Without repeated keys there is no choice. */
  lemma NoChoice<K(!new), V>(slots: seq<Slot<K, V>>, hash: K -> nat, m: map<K, V>, table: seq<(K, V)>)
    requires Chosen(slots, hash, m, table) && DistinctKeys(table)
    ensures m == MapOf(table) && |m| == |table|
  {
    MapOfMeaning(table);
    MapOfSize(table);
    hide MapOf;
    hide FirstMapOf;
    hide HomeHas;
  }

  lemma KeepsNothing<K(!new), V>(slots: seq<Slot<K, V>>, hash: K -> nat)
    requires |slots| > 0 && forall i :: 0 <= i < |slots| ==> slots[i] == Slot(None, None, 0)
    ensures Keeps(slots, hash, Layout(EmptyShape(|slots|), map[]))
  {
    KeptNothing(Cells(slots), hash);
    hide Kept;
  }

  function StoredAtHome<K, V>(slots: seq<Slot<K, V>>, k: K, h: nat, v: V): (r: seq<Slot<K, V>>)
    requires h < |slots|
    ensures |r| == |slots|
  {
    slots[h := Slot(Some(k), Some(v), slots[h].next)]
  }

  function StoredBehind<K, V>(slots: seq<Slot<K, V>>, k: K, h: nat, e: nat, v: V): (r: seq<Slot<K, V>>)
    requires h < |slots| && e < |slots|
    ensures |r| == |slots|
  {
    slots[e := Slot(Some(k), Some(v), slots[h].next)][h := slots[h].(next := e + 1)]
  }

  lemma StoreAtHome<K(!new), V>(slots: seq<Slot<K, V>>, hash: K -> nat, s: Layout<K>, k: K, h: nat, v: V)
    returns (s': Layout<K>)
    requires Keeps(slots, hash, s) && h == hash(k) % |slots| && slots[h].key.None?
    ensures k !in s.first && s'.first == s.first[k := h] && |s'.links.where| == |s.links.where| + 1
    ensures Keeps(StoredAtHome(slots, k, h, v), hash, s')
  {
    hide Kept;
    s' := EnterAtHome(Cells(slots), hash, s, k, h);
    assert Cells(StoredAtHome(slots, k, h, v)) == Cells(slots)[h := Cell(Some(k), 0)];
  }

  lemma StoreBehind<K(!new), V>(slots: seq<Slot<K, V>>, hash: K -> nat, s: Layout<K>, k: K, h: nat, e: nat, v: V)
    returns (s': Layout<K>)
    requires Keeps(slots, hash, s) && h == hash(k) % |slots| && slots[h].key.Some?
    requires e < |slots| && slots[e].key.None?
    ensures s'.first == FirstBehind(Cells(slots), s.first, k, h, e) && |s'.links.where| == |s.links.where| + 1
    ensures Keeps(StoredBehind(slots, k, h, e, v), hash, s')
  {
    hide Kept;
    hide InChain;
    hide FirstBehind;
    var t := Cells(slots);
    HomeInChain(t, hash, s, k);
    s' := EnterBehind(t, hash, s, k, h, e);
    assert Cells(StoredBehind(slots, k, h, e, v)) == CellsBehind(t, k, h, e);
  }

  /** An entry more for a key: what the key maps to. */
  function OneMore<K, V>(m: map<K, V>, k: K, v: V, atHome: bool): map<K, V> {
    if k in m && atHome then m else m[k := v]
  }

  /** Nothing but slot `at` has got a new key and a value. */
  ghost predicate StoredOnly<K(!new), V>(slots: seq<Slot<K, V>>, slots': seq<Slot<K, V>>, k: K, at: nat, v: V) {
    && at < |slots| == |slots'| && slots[at].key.None?
    && slots'[at].key == Some(k) && slots'[at].value == Some(v)
    && forall i {:trigger slots'[i]} :: 0 <= i < |slots| && i != at ==>
         slots'[i].key == slots[i].key && slots'[i].value == slots[i].value
  }

  lemma RecordMore<K(!new), V>(slots: seq<Slot<K, V>>, slots': seq<Slot<K, V>>, first: map<K, nat>,
                               m: map<K, V>, k: K, at: nat, v: V)
    requires Records(slots, first, m) && StoredOnly(slots, slots', k, at, v)
    ensures Records(slots', first[k := at], m[k := v]) && Records(slots', first, m)
    ensures k !in first && NoTwins(slots, first) ==> NoTwins(slots', first[k := at])
  {
    forall x {:trigger x in m[k := v]} | x in m[k := v]
      ensures var w := first[k := at][x];
              w < |slots'| && slots'[w].key == Some(x) && slots'[w].value == Some(m[k := v][x])
    {
      if x != k { assert x in m; }
    }
  }

  /** The list has one more entry. */
  lemma ChosenMore<K(!new), V>(slots: seq<Slot<K, V>>, slots': seq<Slot<K, V>>, hash: K -> nat,
                               m: map<K, V>, table: seq<(K, V)>, i: nat)
    requires i < |table| && |slots| == |slots'| > 0 && Chosen(slots, hash, m, table[..i])
    requires forall x :: x in m ==> (HomeHas(slots', hash, x) <==> HomeHas(slots, hash, x))
    ensures var (k, v) := table[i]; Chosen(slots', hash, OneMore(m, k, v, HomeHas(slots, hash, k)), table[..i + 1])
  {
    assert table[..i + 1][..i] == table[..i];
    hide HomeHas;
  }

  lemma HomesSame<K(!new), V>(slots: seq<Slot<K, V>>, slots': seq<Slot<K, V>>, hash: K -> nat, s: Layout<K>,
                              m: map<K, V>, k: K, at: nat, v: V)
    requires Keeps(slots, hash, s) && Records(slots, s.first, m) && StoredOnly(slots, slots', k, at, v)
    ensures forall x :: x in m ==> (HomeHas(slots', hash, x) <==> HomeHas(slots, hash, x))
  {
    forall x | x in m ensures slots[hash(x) % |slots|].key.Some? {
      if slots[hash(x) % |slots|].key.None? { AbsentAtHome(Cells(slots), hash, s, x); }
    }
    hide Keeps;
    hide Records;
  }

  lemma SomeRoom<K(!new), V>(slots: seq<Slot<K, V>>, hash: K -> nat, s: Layout<K>) returns (e: nat)
    requires Keeps(slots, hash, s) && |s.links.where| < |slots|
    ensures e < |slots| && slots[e].key.None?
  {
    hide Kept;
    e := KeptRoom(Cells(slots), hash, s);
  }

  /** With as many entries as slots, every slot holds one. */
  lemma FullSlots<K(!new), V>(slots: seq<Slot<K, V>>, hash: K -> nat, s: Layout<K>)
    requires Keeps(slots, hash, s) && |s.links.where| == |slots|
    ensures forall i {:trigger slots[i]} :: 0 <= i < |slots| ==> slots[i].key.Some? && slots[i].value.Some?
  {
    hide Kept;
    KeptCount(Cells(slots), hash, s);
  }

  class FixedTable<K(==, !new), V(0)> {
    const hash: K -> nat
    const size: nat
    const slot: array<Slot<K, V>>
    ghost var shape: Layout<K>
    ghost var model: map<K, V>

    ghost predicate Partial()
      reads this, slot
    {
      && slot.Length == size > 0
      && Keeps(slot[..], hash, shape)
      && Records(slot[..], shape.first, model)
    }

    ghost predicate Valid()
      reads this, slot
    {
      Partial() && Held() == size
    }

    /** How many entries there are. */
    ghost function Held(): nat
      reads this
    {
      |shape.links.where|
    }

    /** No key is held twice. */
    ghost predicate Distinct()
      reads this, slot
    {
      NoTwins(slot[..], shape.first)
    }

    /** The key sits in its home slot. */
    ghost predicate AtHome(key: K)
      reads this, slot
    {
      HomeHas(slot[..], hash, key)
    }

    /** The table stands for the list. */
    ghost predicate StandsFor(table: seq<(K, V)>)
      reads this, slot
    {
      Chosen(slot[..], hash, model, table)
    }

    /** `_pbcM_ip_new_hash` and `_pbcM_si_new`. The cursor that looks for empty slots only
        moves forward. */
    constructor (hash: K -> nat, table: seq<(K, V)>)
      requires table != []
      ensures Valid() && fresh(slot) && StandsFor(table)
      ensures this.hash == hash && size == |table|
      ensures DistinctKeys(table) ==> Distinct() && model == MapOf(table)
    {
      this.hash := hash;
      size := |table|;
      slot := new Slot<K, V>[|table|](_ => Slot(None, None, 0));
      shape := Layout(EmptyShape(|table|), map[]);
      model := map[];
      new;
      KeepsNothing(slot[..], hash);
      assert Partial() && Held() == 0 && Distinct() by { hide Keeps; }
      hide *;
      Fill(table);
      if DistinctKeys(table) { Unique(table); }
    }

    lemma Unique(table: seq<(K, V)>)
      requires StandsFor(table) && DistinctKeys(table)
      ensures model == MapOf(table)
    {
      hide Chosen;
      NoChoice(slot[..], hash, model, table);
    }

    /** The filling loop. */
    method Fill(table: seq<(K, V)>)
      requires Partial() && Held() == 0 && model == map[] && Distinct() && |table| == size
      modifies this, slot
      ensures Valid() && StandsFor(table)
      ensures DistinctKeys(table) ==> Distinct()
    {
      hide *;
      FillStart(table);
      var empty, i := 0, 0;
      while i < size
        invariant 0 <= i <= size == |table| && 0 <= empty <= size == slot.Length
        invariant Partial() && Held() == i && StandsFor(table[..i])
        invariant DistinctKeys(table) ==> Distinct()
        invariant forall j :: 0 <= j < empty ==> slot[j].key.Some?
      {
        FillStep(table, i);
        HomesAre();
        ghost var slots, m := slot[..], model;
        empty := Add(table[i].0, table[i].1, empty);
        HomesAre();
        ChosenMore(slots, slot[..], hash, m, table, i);
        i := i + 1;
      }
      assert table[..|table|] == table;
      Filled();
    }

    lemma FillStart(table: seq<(K, V)>)
      requires Partial() && model == map[]
      ensures size == slot.Length && StandsFor(table[..0])
    {
      hide Keeps;
      hide Records;
    }

    /** The key of the next entry is new, unless it is repeated. */
    lemma FillStep(table: seq<(K, V)>, i: nat)
      requires i < |table| && StandsFor(table[..i])
      ensures DistinctKeys(table) ==> table[i].0 !in model
    {
      MapsFromList(table[..i]);
      hide MapOf;
      hide FirstMapOf;
      hide HomeHas;
    }

    lemma HomesAre()
      ensures forall x :: AtHome(x) <==> HomeHas(slot[..], hash, x)
      ensures forall t: seq<(K, V)> :: StandsFor(t) <==> Chosen(slot[..], hash, model, t)
    {
      hide Chosen;
      hide HomeHas;
    }

    lemma Filled()
      requires Partial() && Held() == size
      ensures Valid()
    {
      hide Keeps;
      hide Records;
    }

    lemma PartialIs()
      ensures Partial() <==>
                slot.Length == size > 0 && Keeps(slot[..], hash, shape) && Records(slot[..], shape.first, model)
      ensures Held() == |shape.links.where| && (Distinct() <==> NoTwins(slot[..], shape.first))
      ensures forall x :: AtHome(x) <==> HomeHas(slot[..], hash, x)
      ensures Records(slot[..], shape.first, model) ==> shape.first.Keys == model.Keys
    {
      hide Keeps;
      hide NoTwins;
      hide HomeHas;
    }

    /** One turn of the filling loop. A key that is there already is entered once more, right behind
        its home slot; it maps to the new value, unless the home slot itself holds the key. */
    method Add(k: K, v: V, cursor: nat) returns (empty: nat)
      requires Partial() && Held() < size
      requires cursor <= size == slot.Length && forall j :: 0 <= j < cursor ==> slot[j].key.Some?
      modifies this, slot
      ensures Partial() && Held() == old(Held()) + 1
      ensures model == OneMore(old(model), k, v, old(AtHome(k)))
      ensures forall x <- old(model) :: AtHome(x) <==> old(AtHome(x))
      ensures old(Distinct()) && k !in old(model) ==> Distinct()
      ensures cursor <= empty <= size && forall j :: 0 <= j < empty ==> slot[j].key.Some?
      ensures var h := hash(k) % size;
              if old(slot[h]).key.None? then slot[..] == StoredAtHome(old(slot[..]), k, h, v) && empty == cursor
              else
                && empty < size && old(slot[empty]).key.None?
                && (forall j :: cursor <= j < empty ==> old(slot[j]).key.Some?)
                && slot[..] == StoredBehind(old(slot[..]), k, h, empty, v)
    {
      hide *;
      PartialIs();
      ghost var slots, s, m := slot[..], shape, model;
      KeysKnown(slots, hash, s, m);
      var h := hash(k) % size;
      assert slots[h] == slot[h];
      OneMoreIs(slots, hash, m, k, v);
      ghost var at;
      if slot[h].key.None? {
        empty, at := cursor, h;
        shape := StoreAtHome(slots, hash, s, k, h, v);
        WriteAtHome(k, v, h);
        model := m[k := v];
      } else {
        empty := FindEmpty(cursor);
        at := empty;
        assert slots[empty] == slot[empty];
        shape := StoreBehind(slots, hash, s, k, h, empty, v);
        FirstIs(slots, s.first, k, h, empty);
        WriteBehind(k, v, h, empty);
        model := if slots[h].key == Some(k) then m else m[k := v];
      }
      RecordMore(slots, slot[..], s.first, m, k, at, v);
      HomesSame(slots, slot[..], hash, s, m, k, at, v);
      PartialIs();
    }

    method WriteAtHome(k: K, v: V, h: nat)
      requires h < slot.Length && slot[h].key.None?
      modifies slot
      ensures slot[..] == StoredAtHome(old(slot[..]), k, h, v) && StoredOnly(old(slot[..]), slot[..], k, h, v)
      ensures forall j :: 0 <= j < slot.Length && old(slot[j]).key.Some? ==> slot[j].key.Some?
    {
      slot[h] := Slot(Some(k), Some(v), slot[h].next);
    }

    method WriteBehind(k: K, v: V, h: nat, e: nat)
      requires h < slot.Length && e < slot.Length && slot[h].key.Some? && slot[e].key.None?
      modifies slot
      ensures slot[..] == StoredBehind(old(slot[..]), k, h, e, v) && StoredOnly(old(slot[..]), slot[..], k, e, v)
      ensures forall j :: 0 <= j < slot.Length && old(slot[j]).key.Some? ==> slot[j].key.Some?
    {
      slot[e] := Slot(Some(k), Some(v), slot[h].next);
      slot[h] := slot[h].(next := e + 1);
    }

    /** The cursor never runs off the table: one of the slots ahead of it is empty. */
    method FindEmpty(cursor: nat) returns (empty: nat)
      requires Partial() && Held() < size
      requires cursor <= size == slot.Length && forall j :: 0 <= j < cursor ==> slot[j].key.Some?
      ensures cursor <= empty < size && slot[empty].key.None?
      ensures forall j :: 0 <= j < empty ==> slot[j].key.Some?
    {
      hide *;
      PartialIs();
      ghost var e := SomeRoom(slot[..], hash, shape);
      assert slot[..][e].key.None?;
      empty := cursor;
      while slot[empty].key.Some?
        invariant cursor <= empty <= e < size == slot.Length
        invariant forall j :: 0 <= j < empty ==> slot[j].key.Some?
        decreases e - empty
      {
        empty := empty + 1;
      }
    }

    /** The hash branch of `_pbcM_ip_query`, and `_pbcM_si_query`. */
    method Query(key: K) returns (value: Option<V>)
      requires Valid()
      ensures value == if key in model then Some(model[key]) else None
    {
      hide *;
      ValidIs();
      var c: nat := hash(key) % size;
      ghost var slots := slot[..];
      QueryStart(slots, hash, shape, key);
      while true
        invariant c < size == |shape.links.rank| && Walking(Cells(slots), shape, key, c)
        decreases Ahead(shape.links, c)
      {
        QueryStep(slots, hash, shape, model, key, c);
        assert slot[c] == slots[c];
        if slot[c].key == Some(key) { return slot[c].value; }
        if slot[c].next == 0 { return None; }
        c := slot[c].next - 1;
      }
    }

    lemma ValidIs()
      requires Valid()
      ensures slot.Length == size > 0 && Keeps(slot[..], hash, shape) && Records(slot[..], shape.first, model)
      ensures |shape.links.where| == size && (Distinct() <==> NoTwins(slot[..], shape.first))
    {
      hide Keeps;
      hide NoTwins;
    }
  }

  lemma KeysKnown<K(!new), V>(slots: seq<Slot<K, V>>, hash: K -> nat, s: Layout<K>, m: map<K, V>)
    requires Keeps(slots, hash, s) && Records(slots, s.first, m)
    ensures s.first.Keys == m.Keys
            && forall i {:trigger slots[i]} :: 0 <= i < |slots| && slots[i].key.Some? ==> slots[i].key.value in m
  {
    KeptFirst(Cells(slots), hash, s);
    hide Kept;
  }

  lemma OneMoreIs<K(!new), V>(slots: seq<Slot<K, V>>, hash: K -> nat, m: map<K, V>, k: K, v: V)
    requires |slots| > 0
    requires forall i {:trigger slots[i]} :: 0 <= i < |slots| && slots[i].key.Some? ==> slots[i].key.value in m
    ensures OneMore(m, k, v, HomeHas(slots, hash, k))
            == if slots[hash(k) % |slots|].key == Some(k) then m else m[k := v]
  {
  }

  lemma FirstIs<K(!new), V>(slots: seq<Slot<K, V>>, first: map<K, nat>, k: K, c: nat, e: nat)
    requires c < |slots|
    ensures FirstBehind(Cells(slots), first, k, c, e) == if slots[c].key == Some(k) then first else first[k := e]
  {
  }

  lemma QueryStart<K(!new), V>(slots: seq<Slot<K, V>>, hash: K -> nat, s: Layout<K>, k: K)
    requires Keeps(slots, hash, s)
    ensures |s.links.rank| == |slots| && Walking(Cells(slots), s, k, hash(k) % |slots|)
  {
    hide Kept;
    WalkStart(Cells(slots), hash, s, k);
  }

  lemma QueryStep<K(!new), V>(slots: seq<Slot<K, V>>, hash: K -> nat, s: Layout<K>, m: map<K, V>, k: K, c: nat)
    requires Keeps(slots, hash, s) && Records(slots, s.first, m) && Walking(Cells(slots), s, k, c)
    ensures c < |slots| == |s.links.rank|
    ensures var x := slots[c];
            && (x.key == Some(k) ==> k in m && x.value == Some(m[k]))
            && (x.key != Some(k) && x.next == 0 ==> k !in m)
            && (x.key != Some(k) && x.next != 0 ==>
                  x.next <= |slots| && Walking(Cells(slots), s, k, x.next - 1)
                    && Ahead(s.links, x.next - 1) < Ahead(s.links, c))
  {
    hide Kept;
    hide Walking;
    WalkFurther(Cells(slots), hash, s, k, c);
  }
}
