/** The table from ids to pointers, `struct map_ip` of lualib-src/pbc/src/map.c: a plain array
    when the ids are small, a hash table otherwise. */
module IdMaps {
  import opened Words
  import opened Chains
  import opened Copies
  import opened FixedTables

  /** `(unsigned)id` */
  function IdHash(): i32 -> nat { id => Unsigned32(id) }

  function Given<V>(m: map<i32, V>, id: int): Option<V> { if id in m then Some(m[id]) else None }

  class IdMap<V(0)> {
    var arraySize: nat
    var direct: array?<Option<V>>
    var hashSize: nat
    var hash: FixedTable?<i32, V>
    ghost var model: map<i32, V>

    ghost predicate Valid()
      reads this, direct, hash, if hash == null then {} else {hash.slot}
    {
      && hashSize > 0
      && (direct != null <==> hash == null)
      && (direct != null ==>
            && direct.Length == arraySize
            && (forall id {:trigger id in model} :: id in model ==>
                 0 <= id < arraySize && direct[id] == Some(model[id]))
            && (forall id {:trigger direct[id]} :: 0 <= id < arraySize && direct[id].Some? ==> id in model))
      && (hash != null ==> hash.Valid() && hash.hash == IdHash() && hash.model == model && hash.size == hashSize)
    }

    /** No id is held twice, or was given twice. */
    ghost predicate Single()
      reads this, hash, if hash == null then {} else {hash.slot}
    {
      (direct != null ==> hashSize == |model|) && (hash != null ==> hash.Distinct())
    }

    /** The table stands for the list. Of several entries with one id the array form knows the last, and
        the hash form the first if it is in its home slot and else the last. */
    ghost predicate StandsFor(table: seq<(i32, V)>)
      reads this, hash, if hash == null then {} else {hash.slot}
    {
      (direct != null ==> model == MapOf(table)) && (hash != null ==> hash.StandsFor(table))
    }

    /** `_pbcM_ip_new_hash` */
    constructor Hash(table: seq<(i32, V)>)
      requires table != []
      ensures Valid() && StandsFor(table) && hashSize == |table|
      ensures DistinctKeys(table) ==> model == MapOf(table) && Single()
      ensures direct == null && hash != null && fresh(hash) && fresh(hash.slot)
      ensures forall id: i32 :: hash.hash(id) == if id >= 0 then id else id + 0x1_0000_0000
    {
      hide FixedTable.Partial;
      hide FixedTable.StandsFor;
      hide FixedTable.Distinct;
      hide MapOf;
      hide DistinctKeys;
      arraySize, direct := 0, null;
      hashSize := |table|;
      var h := new FixedTable<i32, V>(IdHash(), table);
      hash, model := h, h.model;
      new;
    }

    /** The array branch of `_pbcM_ip_new`. */
    constructor Direct(table: seq<(i32, V)>, max: nat)
      requires table != []
      requires forall i :: 0 <= i < |table| ==> 0 <= table[i].0 <= max
      ensures Valid() && StandsFor(table) && hashSize == |table|
      ensures DistinctKeys(table) ==> Single()
      ensures direct != null && fresh(direct) && hash == null
    {
      hash, hashSize := null, |table|;
      arraySize := max + 1;
      direct := new Option<V>[max + 1](_ => None);
      model := MapOf(table);
      new;
      if DistinctKeys(table) { MapOfSize(table); }
      hide DistinctKeys;
      ghost var known: map<i32, V> := map[];
      for i := 0 to |table|
        invariant direct != null && direct.Length == arraySize == max + 1 && fresh(direct)
        invariant hash == null && hashSize == |table| && model == MapOf(table) && known == MapOf(table[..i])
        invariant forall id {:trigger direct[id]} :: 0 <= id < arraySize ==> direct[id] == Given(known, id)
        invariant forall id {:trigger id in known} :: id in known ==> 0 <= id < arraySize
      {
        assert table[..i + 1][..i] == table[..i];
        direct[table[i].0] := Some(table[i].1);
        known := known[table[i].0 := table[i].1];
      }
      assert table[..|table|] == table;
      assert known == model;
      forall id {:trigger id in model} | id in model ensures 0 <= id < arraySize && direct[id] == Some(model[id]) {
        assert id in known && direct[id] == Given(known, id);
      }
    }

    /** `_inject`: the entries as an association list, in array or slot order. */
    method Inject() returns (table: seq<(i32, V)>)
      requires Valid() && Single()
      ensures DistinctKeys(table) && MapOf(table) == model && |table| == hashSize
    {
      if direct != null {
        table := InjectDirect();
      } else {
        table := InjectHash();
      }
      MapOfIs(table, model);
    }


    method InjectDirect() returns (table: seq<(i32, V)>)
      requires Valid() && direct != null
      ensures DistinctKeys(table)
      ensures forall j :: 0 <= j < |table| ==> table[j].0 in model && table[j].1 == model[table[j].0]
      ensures forall id :: id in model ==> (id, model[id]) in table
    {
      table := [];
      var i := 0;
      while i < arraySize
        invariant 0 <= i <= arraySize
        invariant forall j :: 0 <= j < |table| ==>
                    0 <= table[j].0 < i && table[j].0 in model && table[j].1 == model[table[j].0]
        invariant DistinctKeys(table)
        invariant forall id :: id in model && id < i ==> (id, model[id]) in table
      {
        if direct[i].Some? { table := table + [(i, direct[i].value)]; }
        i := i + 1;
      }
    }

    method InjectHash() returns (table: seq<(i32, V)>)
      requires Valid() && Single() && hash != null
      ensures DistinctKeys(table) && |table| == hashSize
      ensures forall j :: 0 <= j < |table| ==> table[j].0 in model && table[j].1 == model[table[j].0]
      ensures forall id :: id in model ==> (id, model[id]) in table
    {
      hide *;
      ghost var slots, first := hash.slot[..], hash.shape.first;
      Parts();
      FullSlots(slots, hash.hash, hash.shape);
      EntriesOnce(slots, hash.hash, hash.shape, model);
      table := [];
      var i := 0;
      while i < hashSize
        invariant 0 <= i <= hashSize == hash.slot.Length && |table| == i
        invariant forall j :: 0 <= j < i ==> (Some(table[j].0), Some(table[j].1)) == (slots[j].key, slots[j].value)
      {
        assert hash.slot[i] == slots[i];
        table := table + [(hash.slot[i].key.value, hash.slot[i].value.value)];
        i := i + 1;
      }
      SlotsListed(slots, first, model, table);
    }

    lemma Parts()
      requires Valid() && Single() && hash != null
      ensures hash.Valid() && hash.model == model && hash.size == hashSize && direct == null && hash.Distinct()
      ensures hash.slot.Length == hashSize > 0 && Keeps(hash.slot[..], hash.hash, hash.shape)
      ensures Records(hash.slot[..], hash.shape.first, model)
      ensures |hash.shape.links.where| == hashSize && NoTwins(hash.slot[..], hash.shape.first)
    {
      hash.ValidIs();
      hide Keeps;
      hide NoTwins;
      hide Records;
    }
  }

  /** Without repeated keys, what the slots hold is the map. */
  lemma EntriesOnce<K(!new), V>(slots: seq<Slot<K, V>>, hash: K -> nat, s: Layout<K>, m: map<K, V>)
    requires Keeps(slots, hash, s) && Records(slots, s.first, m) && NoTwins(slots, s.first)
    ensures forall i {:trigger slots[i]} :: 0 <= i < |slots| && slots[i].key.Some? ==>
              var k := slots[i].key.value; k in m && slots[i].value == Some(m[k]) && k in s.first && s.first[k] == i
    ensures forall k :: k in m ==> k in s.first && s.first[k] < |slots| && slots[s.first[k]].key == Some(k)
  {
    hide Keeps;
  }

  /** A list of what the slots hold. */
  lemma SlotsListed<K(!new), V>(slots: seq<Slot<K, V>>, first: map<K, nat>, m: map<K, V>, table: seq<(K, V)>)
    requires |table| == |slots|
    requires forall j :: 0 <= j < |slots| ==> (Some(table[j].0), Some(table[j].1)) == (slots[j].key, slots[j].value)
    requires forall i {:trigger slots[i]} :: 0 <= i < |slots| && slots[i].key.Some? ==>
               var k := slots[i].key.value; k in m && slots[i].value == Some(m[k]) && k in first && first[k] == i
    requires forall k :: k in m ==> k in first && first[k] < |slots| && slots[first[k]].key == Some(k)
    ensures DistinctKeys(table)
    ensures forall j :: 0 <= j < |table| ==> table[j].0 in m && table[j].1 == m[table[j].0]
    ensures forall k :: k in m ==> (k, m[k]) in table
  {
    forall j | 0 <= j < |table| ensures table[j].0 in m && table[j].1 == m[table[j].0] {
      assert slots[j].key == Some(table[j].0);
    }
    forall j, l | 0 <= j < l < |table| ensures table[j].0 != table[l].0 {
      assert first[slots[j].key.value] == j && first[slots[l].key.value] == l;
    }
    forall k | k in m ensures (k, m[k]) in table {
      assert table[first[k]] == (k, m[k]);
    }
  }

  /** `_pbcM_ip_new`: the array form is chosen when no id is negative or above twice the number
      of entries. */
  method New<V(0)>(table: seq<(i32, V)>) returns (m: IdMap<V>)
    requires table != []
    ensures fresh(m) && m.Valid() && m.StandsFor(table) && m.hashSize == |table|
    ensures DistinctKeys(table) ==> m.model == MapOf(table) && m.Single()
    ensures if m.direct != null then m.hash == null && fresh(m.direct)
            else m.hash != null && fresh(m.hash) && fresh(m.hash.slot)
    ensures m.direct != null <==> forall i :: 0 <= i < |table| ==> 0 <= table[i].0 <= 2 * |table|
  {
    var size := |table|;
    var max: int := table[0].0;
    if max > size * 2 || max < 0 {
      m := new IdMap<V>.Hash(table);
      return;
    }
    var i := 1;
    while i < size
      invariant 1 <= i <= size && 0 <= max <= 2 * size
      invariant forall j :: 0 <= j < i ==> 0 <= table[j].0 <= max
    {
      if table[i].0 < 0 {
        m := new IdMap<V>.Hash(table);
        return;
      }
      if table[i].0 > max {
        max := table[i].0;
        if max > size * 2 {
          m := new IdMap<V>.Hash(table);
          return;
        }
      }
      i := i + 1;
    }
    m := new IdMap<V>.Direct(table, max);
  }

  /** `_pbcM_ip_query` */
  method Query<V(0)>(m: IdMap?<V>, id: i32) returns (value: Option<V>)
    requires m != null ==> m.Valid()
    ensures value == if m != null && id in m.model then Some(m.model[id]) else None
  {
    if m == null { return None; }
    if m.direct != null {
      if 0 <= id < m.arraySize { return m.direct[id]; }
      return None;
    }
    value := m.hash.Query(id);
  }

  /** `_pbcM_ip_combine`: both lists, one after the other. */
  method Combine<V(0)>(a: IdMap<V>, b: IdMap<V>) returns (r: IdMap<V>)
    requires a.Valid() && b.Valid() && a.Single() && b.Single()
    ensures fresh(r) && r.Valid() && r.model.Keys == a.model.Keys + b.model.Keys
    ensures forall id <- r.model ::
              if id !in b.model then r.model[id] == a.model[id]
              else if id !in a.model then r.model[id] == b.model[id]
              else r.model[id] == b.model[id] || (r.hash != null && r.model[id] == a.model[id])
    ensures a.model.Keys !! b.model.Keys ==> r.model == a.model + b.model && r.Single()
  {
    hide *;
    var ta := a.Inject();
    var tb := b.Inject();
    InjectedSome(a, ta);
    r := New(ta + tb);
    JoinedLast(ta, tb);
    JoinedFirst(ta, tb);
    MapOfMeaning(ta);
    MapOfMeaning(tb);
    Choice(r, ta + tb);
    if a.model.Keys !! b.model.Keys { UnionTable(ta, tb); }
  }

  /** What the table gives for an id is the first or the last value of the list. */
  lemma Choice<V(0)>(m: IdMap<V>, table: seq<(i32, V)>)
    requires m.Valid() && m.StandsFor(table)
    ensures m.model.Keys == MapOf(table).Keys == FirstMapOf(table).Keys
    ensures forall id <- m.model ::
              m.model[id] == MapOf(table)[id] || (m.hash != null && m.model[id] == FirstMapOf(table)[id])
  {
    MapsFromList(table);
    hide MapOf;
    hide FirstMapOf;
    hide FixedTable.Valid;
    hide HomeHas;
  }

  lemma {:induction false} JoinedLast<V>(ta: seq<(i32, V)>, tb: seq<(i32, V)>)
    ensures MapOf(ta + tb) == MapOf(ta) + MapOf(tb)
  {
    if tb == [] {
      assert ta + tb == ta;
    } else {
      var n := |tb| - 1;
      assert (ta + tb)[..|ta| + n] == ta + tb[..n];
      JoinedLast(ta, tb[..n]);
    }
  }

  lemma {:induction false} JoinedFirst<V>(ta: seq<(i32, V)>, tb: seq<(i32, V)>)
    ensures FirstMapOf(ta + tb) == FirstMapOf(tb) + FirstMapOf(ta)
  {
    if tb == [] {
      assert ta + tb == ta;
    } else {
      var n := |tb| - 1;
      assert (ta + tb)[..|ta| + n] == ta + tb[..n];
      JoinedFirst(ta, tb[..n]);
    }
  }

  lemma InjectedSome<V(0)>(a: IdMap<V>, ta: seq<(i32, V)>)
    requires a.Valid() && |ta| == a.hashSize
    ensures ta != []
  {
  }

  lemma UnionTable<V>(ta: seq<(i32, V)>, tb: seq<(i32, V)>)
    requires DistinctKeys(ta) && DistinctKeys(tb) && MapOf(ta).Keys !! MapOf(tb).Keys
    ensures DistinctKeys(ta + tb) && MapOf(ta + tb) == MapOf(ta) + MapOf(tb)
  {
    hide MapOf;
    MapOfMeaning(ta);
    MapOfMeaning(tb);
    UnionEntries(ta, tb, MapOf(ta), MapOf(tb));
    UnionKeys(ta, tb, MapOf(ta), MapOf(tb));
    UnionAll(ta, tb, MapOf(ta), MapOf(tb));
    MapOfIs(ta + tb, MapOf(ta) + MapOf(tb));
  }

  /** The list lists entries of the map. */
  ghost predicate Lists<V>(t: seq<(i32, V)>, m: map<i32, V>) {
    forall i :: 0 <= i < |t| ==> t[i].0 in m && m[t[i].0] == t[i].1
  }

  lemma UnionEntries<V>(ta: seq<(i32, V)>, tb: seq<(i32, V)>, ma: map<i32, V>, mb: map<i32, V>)
    requires Lists(ta, ma) && Lists(tb, mb) && ma.Keys !! mb.Keys
    ensures Lists(ta + tb, ma + mb)
  {
    var t := ta + tb;
    forall i | 0 <= i < |t| ensures t[i].0 in ma + mb && (ma + mb)[t[i].0] == t[i].1 {
      assert t[i] == if i < |ta| then ta[i] else tb[i - |ta|];
    }
  }

  lemma UnionKeys<V>(ta: seq<(i32, V)>, tb: seq<(i32, V)>, ma: map<i32, V>, mb: map<i32, V>)
    requires Lists(ta, ma) && Lists(tb, mb) && ma.Keys !! mb.Keys && DistinctKeys(ta) && DistinctKeys(tb)
    ensures DistinctKeys(ta + tb)
  {
    var t := ta + tb;
    forall i, j | 0 <= i < j < |t| ensures t[i].0 != t[j].0 {
      assert t[i] == if i < |ta| then ta[i] else tb[i - |ta|];
      assert t[j] == if j < |ta| then ta[j] else tb[j - |ta|];
    }
  }

  lemma UnionAll<V>(ta: seq<(i32, V)>, tb: seq<(i32, V)>, ma: map<i32, V>, mb: map<i32, V>)
    requires forall k :: k in ma ==> (k, ma[k]) in ta
    requires forall k :: k in mb ==> (k, mb[k]) in tb
    ensures forall k :: k in ma + mb ==> (k, (ma + mb)[k]) in ta + tb
  {
    forall k | k in ma + mb ensures (k, (ma + mb)[k]) in ta + tb {
      assert if k in mb then (k, mb[k]) in tb else (k, ma[k]) in ta;
    }
  }
}
