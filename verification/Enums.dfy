/** The names of an enum type (`_pbcP_push_enum` of lualib-src/pbc/src/proto.c), and what becomes of a
    name that is sent as a number (`pbc_wmessage_string`, `read_value`). */
module Enums {
  import opened Words
  import opened Schemas
  import opened FixedTables
  import opened IdMaps

  function Swapped<A, B>(table: seq<(A, B)>): (r: seq<(B, A)>)
    ensures |r| == |table| && forall i :: 0 <= i < |table| ==> r[i] == (table[i].1, table[i].0)
  {
    seq(|table|, i requires 0 <= i < |table| => (table[i].1, table[i].0))
  }

  /** The value has the name. */
  ghost predicate Has(values: seq<(i32, string)>, id: i32, name: string) { (id, name) in values }

  /** No two values share a name. */
  ghost predicate NamesApart(values: seq<(i32, string)>) { DistinctKeys(Swapped(values)) }

  /** `struct _enum`. Values may share an id, as aliases do. */
  class EnumType {
    const id: IdMap<string>
    const name: FixedTable<string, i32>
    const values: seq<(i32, string)>

    ghost predicate Valid()
      reads this, id, id.direct, id.hash, if id.hash == null then {} else {id.hash.slot}, name, name.slot
    {
      && values != [] && id.Valid() && id.StandsFor(values)
      && name.Valid() && name.StandsFor(Swapped(values))
    }

    /** `_pbcP_push_enum`, which puts the values into both tables. */
    constructor (values: seq<(i32, string)>, calcHash: string -> nat)
      requires values != []
      ensures Valid() && this.values == values
    {
      hide *;
      var byId := New(values);
      var byName := new FixedTable<string, i32>(calcHash, Swapped(values));
      id, name, this.values := byId, byName, values;
      new;
      ValidIs();
    }

    lemma ValidIs()
      ensures Valid() <==>
                values != [] && id.Valid() && id.StandsFor(values) && name.Valid() && name.StandsFor(Swapped(values))
    {
      hide IdMap.Valid;
      hide IdMap.StandsFor;
      hide FixedTable.Valid;
      hide FixedTable.StandsFor;
    }

    /** What the tables answer. */
    ghost predicate Answers(x: EnumNames)
      reads id, name
    {
      name.model == x.ids && id.model == x.names
    }

    lemma AnswersIs(x: EnumNames)
      ensures Answers(x) <==> name.model == x.ids && id.model == x.names
    {
    }

    /** The answers are those of the values: a name has a number exactly if a value has the name, and then the
        number of such a value, and the same for numbers. */
    lemma AnswersTrue(x: EnumNames)
      requires Valid() && Answers(x)
      ensures forall n <- x.ids :: Has(values, x.ids[n], n)
      ensures forall i <- x.names :: Has(values, i, x.names[i])
      ensures forall i: i32, n {:trigger Has(values, i, n)} :: Has(values, i, n) ==> n in x.ids && i in x.names
    {
      hide *;
      ValidIs();
      AnswersIs(x);
      NamesKnown(name, values);
      IdsKnown(id, values);
    }

    /** The number that is sent for a name. */
    method IdOf(n: string) returns (r: Option<i32>)
      requires Valid()
      ensures r == if n in name.model then Some(name.model[n]) else None
      ensures r.None? <==> forall i: i32 :: !Has(values, i, n)
      ensures r.Some? ==> Has(values, r.value, n)
    {
      hide *;
      ValidIs();
      r := name.Query(n);
      NamesKnown(name, values);
    }

    /** The name that a reader gives for a number. */
    method NameOf(i: i32) returns (r: Option<string>)
      requires Valid()
      ensures r == if i in id.model then Some(id.model[i]) else None
      ensures r.None? <==> forall n :: !Has(values, i, n)
      ensures r.Some? ==> Has(values, i, r.value)
    {
      hide *;
      ValidIs();
      r := Query(id, i);
      IdsKnown(id, values);
    }

    /** A name that is sent as a number and read: it comes back, or another name of its value does. */
    method NameThere(n: string) returns (r: Option<string>)
      requires Valid()
      ensures r.None? <==> forall i: i32 :: !Has(values, i, n)
      ensures r.Some? ==> exists i: i32 :: Has(values, i, n) && Has(values, i, r.value)
      ensures r.Some? && DistinctKeys(values) ==> r.value == n
    {
      hide *;
      var sent := IdOf(n);
      if sent.None? { return None; }
      SignComesBack(sent.value);
      r := NameOf(Signed32(Unsigned32(sent.value)));
      if DistinctKeys(values) { OneName(values, sent.value, n, r.value); }
    }

    /** A number that is read as a name and sent again. */
    method NumberThere(i: i32) returns (r: Option<i32>)
      requires Valid()
      ensures r.None? <==> forall n :: !Has(values, i, n)
      ensures r.Some? && NamesApart(values) ==> r.value == i
    {
      hide *;
      var n := NameOf(i);
      if n.None? { return None; }
      r := IdOf(n.value);
      if NamesApart(values) { OneNumber(values, i, r.value, n.value); }
    }
  }

  lemma SignComesBack(i: i32)
    ensures Signed32(Unsigned32(i)) == i
  {
  }

  lemma NamesKnown(t: FixedTable<string, i32>, values: seq<(i32, string)>)
    requires t.Valid() && t.StandsFor(Swapped(values))
    ensures forall n <- t.model :: Has(values, t.model[n], n)
    ensures forall i: i32, n {:trigger Has(values, i, n)} :: Has(values, i, n) ==> n in t.model
  {
    var table := Swapped(values);
    MapsFromList(table);
    hide MapOf;
    hide FirstMapOf;
    hide HomeHas;
    hide FixedTable.Valid;
    forall n <- t.model ensures Has(values, t.model[n], n) {
      assert (n, t.model[n]) in table;
      var k :| 0 <= k < |table| && table[k] == (n, t.model[n]);
      assert values[k] == (t.model[n], n);
    }
    forall i: i32, n {:trigger Has(values, i, n)} | Has(values, i, n) ensures n in t.model {
      var k :| 0 <= k < |values| && values[k] == (i, n);
      assert table[k].0 == n;
    }
  }

  lemma IdsKnown(m: IdMap<string>, values: seq<(i32, string)>)
    requires m.Valid() && m.StandsFor(values)
    ensures forall i <- m.model :: Has(values, i, m.model[i])
    ensures forall i: i32, n {:trigger Has(values, i, n)} :: Has(values, i, n) ==> i in m.model
  {
    Choice(m, values);
    MapsFromList(values);
    hide MapOf;
    hide FirstMapOf;
    hide IdMap.Valid;
    hide IdMap.StandsFor;
    forall i: i32, n {:trigger Has(values, i, n)} | Has(values, i, n) ensures i in m.model {
      var k :| 0 <= k < |values| && values[k] == (i, n);
      assert values[k].0 == i;
    }
  }

  lemma OneName(values: seq<(i32, string)>, i: i32, n: string, n': string)
    requires DistinctKeys(values) && Has(values, i, n) && Has(values, i, n')
    ensures n == n'
  {
    var k :| 0 <= k < |values| && values[k] == (i, n);
    var l :| 0 <= l < |values| && values[l] == (i, n');
  }

  lemma OneNumber(values: seq<(i32, string)>, i: i32, i': i32, n: string)
    requires NamesApart(values) && Has(values, i, n) && Has(values, i', n)
    ensures i == i'
  {
    var k :| 0 <= k < |values| && values[k] == (i, n);
    var l :| 0 <= l < |values| && values[l] == (i', n);
    assert Swapped(values)[k].0 == n && Swapped(values)[l].0 == n;
  }
}
