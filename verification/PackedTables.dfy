/** The packed fields of a message being written, in memory (`_get_packed` and `_packed_integer` of
    lualib-src/pbc/src/wmessage.c): a table from names to vectors of numbers. The writers in WMessages
    see it as the list of the fields in slot order. */
module PackedTables {
  import opened Words
  import opened Schemas
  import opened Writers
  import opened StringMaps
  import opened Vectors
  import opened VectorMaps

  /** `struct _packed` */
  datatype Packed = Packed(id: i32, ptype: PType, data: Vector<LongLong>)

  /** The fields, with what their vectors hold. */
  ghost function FieldsOf(entries: seq<(string, Packed)>, c: map<string, seq<LongLong>>): (r: seq<PackedField>)
    requires forall e <- entries :: e.0 in c
    ensures |r| == |entries|
    ensures forall i :: 0 <= i < |r| ==>
              r[i] == PackedField(entries[i].0, entries[i].1.id, entries[i].1.ptype, c[entries[i].0])
  {
    seq(|entries|, i requires 0 <= i < |entries| =>
          PackedField(entries[i].0, entries[i].1.id, entries[i].1.ptype, c[entries[i].0]))
  }

  /** The entries are those of the map, each once. */
  ghost predicate Enumerates(entries: seq<(string, Packed)>, model: map<string, Option<Packed>>) {
    && (forall e <- entries :: e.0 in model && model[e.0] == Some(e.1))
    && (forall k <- model :: model[k].Some? ==> (k, model[k].value) in entries)
    && forall i, j :: 0 <= i < j < |entries| ==> entries[i].0 != entries[j].0
  }

  /** All keys hold a vector. */
  ghost predicate Agree(model: map<string, Option<Packed>>, vs: map<string, Vector<LongLong>>) {
    model.Keys == vs.Keys && forall k <- model :: model[k].Some? && model[k].value.data == vs[k]
  }

  lemma EntriesKeyed(entries: seq<(string, Packed)>, model: map<string, Option<Packed>>, c: map<string, seq<LongLong>>)
    requires Enumerates(entries, model) && model.Keys == c.Keys
    ensures forall e <- entries :: e.0 in c && model[e.0] == Some(e.1)
    ensures KeysDistinct(FieldsOf(entries, c))
  {
  }

  /** One more number for a field that is there. */
  lemma AddedKnown(entries: seq<(string, Packed)>, model: map<string, Option<Packed>>, c: map<string, seq<LongLong>>,
                   f: Field, v: LongLong)
    requires Enumerates(entries, model) && model.Keys == c.Keys && f.name in model && model[f.name].Some?
    ensures forall e <- entries :: e.0 in c
    ensures PackedAdded(FieldsOf(entries, c), FieldsOf(entries, c[f.name := c[f.name] + [v]]), f, v)
  {
    EntriesKeyed(entries, model, c);
    assert (f.name, model[f.name].value) in entries;
    var k :| 0 <= k < |entries| && entries[k] == (f.name, model[f.name].value);
    var was, now := FieldsOf(entries, c), FieldsOf(entries, c[f.name := c[f.name] + [v]]);
    assert was[k].key == f.name;
    assert now == was[k := was[k].(data := was[k].data + [v])];
  }

  /** The first number of a field. */
  lemma AddedNew(entries: seq<(string, Packed)>, entries': seq<(string, Packed)>, model: map<string, Option<Packed>>,
                 c: map<string, seq<LongLong>>, f: Field, p: Packed, v: LongLong)
    requires Enumerates(entries, model) && model.Keys == c.Keys && f.name !in model
    requires p.id == f.id && p.ptype == f.ptype && Enumerates(entries', model[f.name := Some(p)])
    ensures (forall e <- entries :: e.0 in c) && forall e <- entries' :: e.0 in c[f.name := [v]]
    ensures PackedAdded(FieldsOf(entries, c), FieldsOf(entries', c[f.name := [v]]), f, v)
  {
    var x := PackedField(f.name, f.id, f.ptype, [v]);
    EntriesKeyed(entries, model, c);
    EntriesKeyed(entries', model[f.name := Some(p)], c[f.name := [v]]);
    var was, now := FieldsOf(entries, c), FieldsOf(entries', c[f.name := [v]]);
    forall k | 0 <= k < |was| ensures was[k].key != f.name { assert entries[k] in entries; }
    SameMembers(entries, entries', model, c, f, p, v);
    OnceEach(now, was + [x]);
  }

  lemma SameMembers(entries: seq<(string, Packed)>, entries': seq<(string, Packed)>, model: map<string, Option<Packed>>,
                    c: map<string, seq<LongLong>>, f: Field, p: Packed, v: LongLong)
    requires Enumerates(entries, model) && model.Keys == c.Keys && f.name !in model
    requires p.id == f.id && p.ptype == f.ptype && Enumerates(entries', model[f.name := Some(p)])
    requires (forall e <- entries :: e.0 in c) && forall e <- entries' :: e.0 in c[f.name := [v]]
    ensures var was, now := FieldsOf(entries, c), FieldsOf(entries', c[f.name := [v]]);
            forall x :: x in now <==> x in was + [PackedField(f.name, f.id, f.ptype, [v])]
  {
    var was, now := FieldsOf(entries, c), FieldsOf(entries', c[f.name := [v]]);
    var x := PackedField(f.name, f.id, f.ptype, [v]);
    forall y | y in now ensures y in was + [x] {
      var i :| 0 <= i < |now| && now[i] == y;
      assert (entries'[i].0, entries'[i].1) in entries';
      if entries'[i].0 != f.name {
        assert (entries'[i].0, entries'[i].1) in entries;
        var j :| 0 <= j < |entries| && entries[j] == entries'[i];
        assert was[j] == y;
      }
    }
    forall y | y in was + [x] ensures y in now {
      if y == x {
        assert f.name in model[f.name := Some(p)];
        assert (f.name, p) in entries';
        var i :| 0 <= i < |entries'| && entries'[i] == (f.name, p);
        assert now[i] == x;
      } else {
        var j :| 0 <= j < |was| && was[j] == y;
        assert entries[j] in entries && entries[j].0 in model[f.name := Some(p)];
        assert (entries[j].0, entries[j].1) in entries';
        var i :| 0 <= i < |entries'| && entries'[i] == entries[j];
        assert now[i] == y;
      }
    }
  }

  /** Lists without repetition that have the same members are rearrangements of each other. */
  lemma OnceEach(a: seq<PackedField>, b: seq<PackedField>)
    requires KeysDistinct(a) && KeysDistinct(b) && forall x :: x in a <==> x in b
    ensures multiset(a) == multiset(b)
  {
    forall x ensures multiset(a)[x] == multiset(b)[x] {
      CountOnce(a, x);
      CountOnce(b, x);
    }
  }

  lemma {:induction false} CountOnce(a: seq<PackedField>, x: PackedField)
    requires KeysDistinct(a)
    ensures multiset(a)[x] == if x in a then 1 else 0
  {
    if a != [] {
      var n := |a| - 1;
      CountOnce(a[..n], x);
      assert a == a[..n] + [a[n]];
      if a[n] == x { assert forall k :: 0 <= k < n ==> a[k].key != x.key; }
    }
  }

  class PackedTable {
    const table: StringMap<Packed>
    ghost var arrays: map<string, Vector<LongLong>>
    ghost var contents: map<string, seq<LongLong>>
    /** What the table stands for. */
    ghost var fields: seq<PackedField>
    ghost var repr: set<object>

    ghost predicate Owns()
      reads this`arrays, this`contents, this`repr, repr
    {
      && table in repr && table.slot in repr && this !in repr && table.Valid() && table.Distinct()
      && (forall k <- arrays :: arrays[k] in repr && arrays[k].a in repr)
      && Prints(arrays) <= repr && table !in Prints(arrays) && table.slot !in Prints(arrays)
      && Hold(arrays, contents) && Unshared(arrays) && Agree(table.Model(), arrays)
    }

    ghost predicate Valid()
      reads this, repr
    {
      && Owns()
      && Enumerates(EntriesFrom(table.slot[..], 0), table.Model())
      && (forall e <- EntriesFrom(table.slot[..], 0) :: e.0 in contents)
      && fields == FieldsOf(EntriesFrom(table.slot[..], 0), contents)
    }

    /** The table is made, with room for four fields, when the first one comes. */
    constructor (calcHash: string -> nat)
      ensures Valid() && fields == [] && fresh(repr)
    {
      hide *;
      var table := new StringMap<Packed>(calcHash, 4);
      this.table := table;
      arrays, contents, fields := map[], map[], [];
      repr := {table, table.slot};
      new;
      Started();
    }

    lemma Started()
      requires table.Valid() && table.Distinct() && table.Model() == map[] && repr == {table, table.slot}
      requires arrays == map[] && contents == map[] && fields == []
      ensures Valid()
    {
      hide StringMap.Valid;
      hide StringMap.Model;
      hide StringMap.Distinct;
      hide EntriesFrom;
      hide Hold;
      hide Unshared;
      NoVectors(arrays, contents);
      var all := EntriesFrom(table.slot[..], 0);
      table.Listed(all);
      FirstIn(all);
    }

    lemma OwnsFacts()
      requires Owns()
      ensures table in repr && table.slot in repr && this !in repr && table.Valid() && table.Distinct()
      ensures Members(arrays) <= Prints(arrays) <= repr && table !in Prints(arrays) && table.slot !in Prints(arrays)
      ensures Hold(arrays, contents) && Unshared(arrays) && Agree(table.Model(), arrays)
    {
      hide StringMap.Valid;
      hide StringMap.Model;
      hide StringMap.Distinct;
      hide Hold;
      hide Unshared;
      hide Agree;
    }

    lemma OwnsIs()
      requires table in repr && table.slot in repr && this !in repr && table.Valid() && table.Distinct()
      requires Prints(arrays) <= repr && table !in Prints(arrays) && table.slot !in Prints(arrays)
      requires Hold(arrays, contents) && Unshared(arrays) && Agree(table.Model(), arrays)
      ensures Owns()
    {
      hide StringMap.Valid;
      hide StringMap.Model;
      hide StringMap.Distinct;
      hide Hold;
      hide Unshared;
      hide Agree;
    }

    /** The list in slot order is what the table stands for. */
    lemma Listing()
      requires Owns()
      ensures var all := EntriesFrom(table.slot[..], 0);
              && table.Model().Keys == contents.Keys && Enumerates(all, table.Model())
              && (forall e <- all :: e.0 in contents)
              && (Valid() <==> fields == FieldsOf(all, contents))
    {
      hide StringMap.Valid;
      hide StringMap.Model;
      hide StringMap.Distinct;
      hide EntriesFrom;
      hide Unshared;
      hide FieldsOf;
      var all := EntriesFrom(table.slot[..], 0);
      table.Listed(all);
    }

    /** `_get_packed` */
    method GetPacked(f: Field) returns (p: Packed)
      requires table.Valid() && table.Distinct()
      requires f.name in table.Model() ==> table.Model()[f.name].Some?
      modifies table, table.slot
      ensures table.Valid() && table.Distinct() && (table.slot == old(table.slot) || fresh(table.slot))
      ensures if old(f.name in table.Model()) then
                && table.Model() == old(table.Model()) && Some(p) == table.Model()[f.name]
                && table.slot == old(table.slot) && table.slot[..] == old(table.slot[..])
              else
                && table.Model() == old(table.Model())[f.name := Some(p)] && p.id == f.id && p.ptype == f.ptype
                && fresh(p.data) && fresh(p.data.a) && p.data.Valid() && p.data.Contents() == []
    {
      hide *;
      var at := table.QueryInsert(f.name);
      var q := table.Load(at, f.name);
      if q.Some? { return q.value; }
      var data := new Vector<LongLong>();
      p := Packed.Packed(f.id, f.ptype, data);
      table.Store(at, f.name, Some(p));
    }

    /** `_packed_integer` does what the writers take it to do. */
    method Add(f: Field, v: LongLong)
      requires Valid()
      modifies this, repr
      ensures Valid() && fresh(repr - old(repr))
      ensures KeysDistinct(fields) && PackedAdded(old(fields), fields, f, v)
    {
      hide *;
      Parts();
      OwnsFacts();
      Listing();
      ghost var known, c := f.name in table.Model(), contents;
      ghost var model, all := table.Model(), EntriesFrom(table.slot[..], 0);
      var p := AddHeld(f, v);
      OwnsFacts();
      Listing();
      fields := FieldsOf(EntriesFrom(table.slot[..], 0), contents);
      Listing();
      EntriesKeyed(EntriesFrom(table.slot[..], 0), table.Model(), contents);
      if known {
        AddedKnown(all, model, c, f, v);
      } else {
        AddedNew(all, EntriesFrom(table.slot[..], 0), model, c, f, p, v);
      }
    }

    /** The field's vector gets the number. */
    method AddHeld(f: Field, v: LongLong) returns (p: Packed)
      requires Owns() && table.Model().Keys == contents.Keys
      modifies this`arrays, this`contents, this`repr, repr
      ensures Owns() && fresh(repr - old(repr))
      ensures if f.name in old(table.Model()) then
                && table.Model() == old(table.Model()) && table.Model()[f.name] == Some(p)
                && table.slot[..] == old(table.slot[..])
                && contents == old(contents)[f.name := old(contents)[f.name] + [v]]
              else
                && table.Model() == old(table.Model())[f.name := Some(p)] && p.id == f.id && p.ptype == f.ptype
                && contents == old(contents)[f.name := [v]]
    {
      hide *;
      OwnsFacts();
      ghost var k, model := f.name, table.Model();
      AllThere(model, arrays, k);
      HoldLess(arrays, contents, k);
      ghost var rest, d := arrays - {k}, contents - {k};
      p := PushPacked(f, v);
      AgreeMore(model, arrays, k, p);
      Adopt(k, p.data, rest, d);
    }

    /** `_packed_integer`, seen from the table and the vector. */
    method PushPacked(f: Field, v: LongLong) returns (p: Packed)
      requires table.Valid() && table.Distinct()
      requires f.name in table.Model() ==> table.Model()[f.name].Some? && table.Model()[f.name].value.data.Valid()
      modifies table, table.slot
      modifies if f.name in table.Model() then {table.Model()[f.name].value.data, table.Model()[f.name].value.data.a}
               else {}
      ensures table.Valid() && table.Distinct()
              && (table.slot == old(table.slot) || fresh(table.slot)) && p.data.Valid()
      ensures if old(f.name in table.Model()) then
                && table.Model() == old(table.Model()) && Some(p) == table.Model()[f.name]
                && table.slot == old(table.slot) && table.slot[..] == old(table.slot[..])
                && p.data.Contents() == old(table.Model()[f.name].value.data.Contents()) + [v]
                && (p.data.a == old(table.Model()[f.name].value.data.a) || fresh(p.data.a))
              else
                && table.Model() == old(table.Model())[f.name := Some(p)] && p.id == f.id && p.ptype == f.ptype
                && fresh(p.data) && fresh(p.data.a) && p.data.Contents() == [v]
    {
      hide *;
      ghost var model, known := table.Model(), f.name in table.Model();
      ghost var was := if known then model[f.name].value.data.Contents() else [];
      p := GetPacked(f);
      assert known ==> p == model[f.name].value;
      assert p.data.Valid() && p.data.Contents() == was;
      p.data.Push(v);
      assert [] + [v] == [v];
    }

    /** The books are brought up to date. */
    ghost method Adopt(k: string, v: Vector<LongLong>, rest: map<string, Vector<LongLong>>,
                       d: map<string, seq<LongLong>>)
      requires rest == arrays - {k} && d == contents - {k} && arrays.Keys == contents.Keys
      requires table in repr && this !in repr && table.Valid()
               && table.Distinct() && Agree(table.Model(), arrays[k := v])
      requires Members(rest) <= Prints(rest) <= repr && table !in Prints(rest) && table.slot !in Prints(rest)
      requires Hold(rest, d) && Unshared(rest) && v.Valid() && v !in Prints(rest) && v.a !in Prints(rest)
      requires this != v as object && this != v.a as object && this != table.slot as object
      modifies this`arrays, this`contents, this`repr
      ensures Owns() && arrays == old(arrays)[k := v] && contents == old(contents)[k := v.Contents()]
      ensures repr == old(repr) + {table.slot, v, v.a}
    {
      hide *;
      HoldMore(rest, d, k, v);
      assert rest[k := v] == arrays[k := v] && d[k := v.Contents()] == contents[k := v.Contents()];
      arrays, contents, repr := arrays[k := v], contents[k := v.Contents()], repr + {table.slot, v, v.a};
      OwnsIs();
    }

    /** The fields in slot order: `_pbcM_sp_foreach_ud` when the message is finished. */
    method List() returns (all: seq<PackedField>)
      requires Valid()
      ensures all == fields
    {
      hide *;
      Parts();
      OwnsFacts();
      Listing();
      var entries := table.List();
      EntriesKeyed(entries, table.Model(), contents);
      all := [];
      for i := 0 to |entries|
        invariant all == FieldsOf(entries, contents)[..i]
      {
        assert entries[i] in entries;
        AllThere(table.Model(), arrays, entries[i].0);
        HeldAt(arrays, contents, entries[i].0);
        var p := entries[i].1;
        var data := Numbers(p.data);
        all := all + [PackedField(entries[i].0, p.id, p.ptype, data)];
      }
    }

    lemma Parts()
      ensures Valid() ==> Owns()
    {
      hide Owns;
    }
  }

  /** The tables of some messages, which have nothing in common, hold their packed fields; a message that has
      none need not have a table. */
  ghost predicate Tables(ts: seq<PackedTable?>, lists: seq<seq<PackedField>>, memory: set<object>)
    reads memory
  {
    && |lists| == |ts|
    && (forall i {:trigger ts[i]} :: 0 <= i < |ts| && ts[i] != null ==>
          ts[i] in memory && ts[i].repr <= memory && ts[i].Valid() && ts[i].fields == lists[i])
    && (forall i {:trigger ts[i]} :: 0 <= i < |ts| && ts[i] == null ==> lists[i] == [])
    && forall i, j {:trigger ts[i], ts[j]} :: 0 <= i < j < |ts| && ts[i] != null && ts[j] != null ==>
         ({ts[i]} + ts[i].repr) !! ({ts[j]} + ts[j].repr)
  }

  /** `_packed_integer` and `_packed_real`, on the table of message `i`. */
  method AddNumber(calcHash: string -> nat, ts: seq<PackedTable?>, ghost lists: seq<seq<PackedField>>,
                   ghost memory: set<object>, i: nat, f: Field, v: LongLong)
    returns (ts': seq<PackedTable?>, ghost list: seq<PackedField>, ghost memory': set<object>)
    requires Tables(ts, lists, memory) && i < |ts|
    modifies memory
    ensures i < |lists| && Tables(ts', lists[i := list], memory') && fresh(memory' - memory) && memory <= memory'
    ensures KeysDistinct(list) && PackedAdded(lists[i], list, f, v)
  {
    hide PackedTable.Valid;
    hide PackedAdded;
    hide KeysDistinct;
    var t: PackedTable;
    if ts[i] == null {
      t := new PackedTable(calcHash);
    } else {
      t := ts[i];
    }
    assert t.Valid() && t.fields == lists[i];
    ghost var others := set j, o | 0 <= j < |ts| && j != i && ts[j] != null && o in {ts[j]} + ts[j].repr :: o as object;
    assert ({t} + t.repr) !! others;
    label Before:
    t.Add(f, v);
    ts' := ts[i := t];
    list := t.fields;
    memory' := memory + {t} + t.repr;
    forall j | 0 <= j < |ts| && j != i && ts[j] != null
      ensures ts[j].Valid() && ts[j].fields == lists[j] && ts[j].repr == old@Before(ts[j].repr)
    {
      assert {ts[j]} + old@Before(ts[j].repr) <= others;
    }
  }

  /** The packed fields of message `i`. */
  method ListOf(ts: seq<PackedTable?>, ghost lists: seq<seq<PackedField>>, ghost memory: set<object>, i: nat)
    returns (all: seq<PackedField>)
    requires Tables(ts, lists, memory) && i < |ts|
    ensures i < |lists| && all == lists[i]
  {
    hide PackedTable.Valid;
    if ts[i] == null { return []; }
    all := ts[i].List();
  }

  lemma TableEach(ts: seq<PackedTable?>, lists: seq<seq<PackedField>>, memory: set<object>)
    requires Tables(ts, lists, memory)
    ensures |ts| == |lists|
  {
  }

  /** A message more, without packed fields. */
  lemma OneTableMore(ts: seq<PackedTable?>, lists: seq<seq<PackedField>>, memory: set<object>)
    requires Tables(ts, lists, memory)
    ensures Tables(ts + [null], lists + [[]], memory)
  {
    hide PackedTable.Valid;
  }

  /** The numbers of a vector, one by one. */
  method Numbers(v: Vector<LongLong>) returns (s: seq<LongLong>)
    requires v.Valid()
    ensures s == v.Contents()
  {
    s := [];
    var i := 0;
    while i < v.number
      invariant 0 <= i <= v.number && s == v.Contents()[..i]
    {
      var x := v.Index(i);
      s := s + [x];
      i := i + 1;
    }
  }

  lemma AgreeMore(model: map<string, Option<Packed>>, vs: map<string, Vector<LongLong>>, k: string, p: Packed)
    requires Agree(model, vs)
    ensures Agree(model[k := Some(p)], vs[k := p.data])
    ensures k in model && model[k] == Some(p) ==> Agree(model, vs[k := p.data])
  {
  }

  lemma AllThere(model: map<string, Option<Packed>>, vs: map<string, Vector<LongLong>>, k: string)
    requires Agree(model, vs)
    ensures k in model <==> k in vs
    ensures k in model ==> model[k].Some? && model[k].value.data == vs[k]
  {
  }

  lemma FirstIn(entries: seq<(string, Packed)>)
    ensures entries != [] ==> entries[0] in entries
  {
  }

  lemma NoVectors(vs: map<string, Vector<LongLong>>, c: map<string, seq<LongLong>>)
    requires vs == map[] && c == map[]
    ensures Members(vs) == Prints(vs) == {} && Hold(vs, c) && Unshared(vs)
  {
  }
}
