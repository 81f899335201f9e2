/** The index of a message that is being read (lualib-src/pbc/src/rmessage.c): a table from names to
    values, those of an array in a vector. */
module Indexes {
  import opened Words
  import opened Schemas
  import opened StringMaps
  import opened Vectors
  import opened VectorMaps

  // ----- messages as values ---------------------------------------------------------------------

  /** `union _var`. `Broken` is a sub-message that could not be read. */
  datatype Value = Number(v: LongLong) | Text(b: seq<byte>) | Sub(m: RMessage) | Broken

  /** `struct value`, with all that was filed under one key. */
  datatype Entry = Entry(field: Field, values: seq<Value>)

  /** `struct pbc_rmessage`. A key whose slot holds NULL counts as absent. */
  datatype RMessage = RMessage(typeName: string, index: map<string, Entry>)

  predicate IsArray(f: Field) { f.rule == Repeated || f.rule == Packed }

  /** The index once the values `more` have been filed under the name of `f`. */
  function Filed(index: map<string, Entry>, f: Field, more: seq<Value>): map<string, Entry> {
    var v := (if f.name in index then index[f.name].values else []) + more;
    if v == [] then index - {f.name} else index[f.name := Entry(f, v)]
  }

  /** What a getter sees of an entry: the value at `at` in an array. Of a field that stands alone every
      occurrence is entered in the table, and what is seen is the first one if it sits in its home
      slot, and the last one otherwise. */
  function Pick(e: Entry, at: int, atHome: bool): Value
    requires e.values != [] && (IsArray(e.field) ==> 0 <= at < |e.values|)
  {
    if IsArray(e.field) then e.values[at] else if atHome then e.values[0] else e.values[|e.values| - 1]
  }

  // ----- messages in memory ---------------------------------------------------------------------

  /** A message that has been read. It has no index when it stands in for one that is absent. */
  class Message {
    const typeName: string
    const index: FieldIndex?
    ghost const value: RMessage

    constructor (typeName: string, index: FieldIndex?, ghost value: RMessage)
      ensures this.typeName == typeName && this.index == index && this.value == value
    {
      this.typeName, this.index, this.value := typeName, index, value;
    }

    /** The table of the message stands for its value, and its sub-messages are among `kin`. */
    ghost predicate Whole(kin: set<Message>)
      reads if index == null then {} else {index} + index.repr
    {
      && value.typeName == typeName
      && if index == null then value.index == map[]
         else index.Valid() && index.entries == value.index && index.held.kin <= kin
    }
  }

  datatype Item = NumberItem(v: LongLong) | TextItem(b: seq<byte>) | SubItem(m: Message) | BrokenItem

  /** `struct value` */
  datatype Cell = One(field: Field, item: Item) | Many(field: Field, items: Vector<Item>)

  ghost function ValueOf(x: Item): Value {
    match x
    case NumberItem(v) => Number(v)
    case TextItem(b) => Text(b)
    case SubItem(m) => Sub(m.value)
    case BrokenItem => Broken
  }

  ghost function ValuesOf(s: seq<Item>): (r: seq<Value>)
    ensures |r| == |s| && forall k :: 0 <= k < |s| ==> r[k] == ValueOf(s[k])
  {
    seq(|s|, k requires 0 <= k < |s| => ValueOf(s[k]))
  }

  /** The sub-messages among the items are among `kin`. */
  ghost predicate Among(s: seq<Item>, kin: set<Message>) { forall x <- s :: x.SubItem? ==> x.m in kin }

  /** A field that stands alone. */
  ghost predicate OneFor(c: Cell, e: Entry, atHome: bool, kin: set<Message>) {
    && c.One? && !IsArray(e.field) && e.values != []
    && ValueOf(c.item) == Pick(e, 0, atHome) && Among([c.item], kin)
  }

  /** An array with the given items. */
  ghost predicate ManyFor(c: Cell, e: Entry, v: Vector<Item>, items: seq<Item>, kin: set<Message>) {
    && c.Many? && c.items == v && IsArray(e.field) && items != [] && ValuesOf(items) == e.values && Among(items, kin)
  }

  /** What is needed of a table besides what it maps to: the vectors, what they hold, and the
      sub-messages. */
  datatype Holdings = Holdings(arrays: map<string, Vector<Item>>, contents: map<string, seq<Item>>, kin: set<Message>)

  /** What the table has under a key stands for the entry of the key. */
  ghost predicate KeyStands(t: MessageType, k: string, p: Option<Cell>, atHome: bool, entries: map<string, Entry>,
                            h: Holdings)
    requires h.arrays.Keys == h.contents.Keys
  {
    && k in t.names
    && match p
       case None => IsArray(t.names[k]) && k !in entries && k !in h.arrays
       case Some(c) =>
         && k in entries && entries[k].field == t.names[k] == c.field
         && if k in h.arrays then ManyFor(c, entries[k], h.arrays[k], h.contents[k], h.kin)
            else OneFor(c, entries[k], atHome, h.kin)
  }

  ghost predicate Stands(t: MessageType, model: map<string, Option<Cell>>, homes: set<string>,
                         entries: map<string, Entry>, h: Holdings)
  {
    && h.arrays.Keys == h.contents.Keys && h.arrays.Keys <= entries.Keys <= model.Keys
    && forall k <- model :: KeyStands(t, k, model[k], k in homes, entries, h)
  }

  ghost function SubsOf(items: seq<Item>): set<Message> { set x | x in items && x.SubItem? :: x.m }

  /** One more value of a field that stands alone. */
  lemma OneMore(t: MessageType, model: map<string, Option<Cell>>, homes: set<string>, homes': set<string>,
                entries: map<string, Entry>, h: Holdings, f: Field, item: Item)
    requires Stands(t, model, homes, entries, h)
    requires f.name in t.names && t.names[f.name] == f && !IsArray(f)
    requires forall k <- model :: k in homes' <==> k in homes
    ensures var c := if f.name in model && f.name in homes then model[f.name] else Some(One(f, item));
            Stands(t, model[f.name := c], homes', Filed(entries, f, [ValueOf(item)]), h.(kin := h.kin + SubsOf([item])))
  {
    hide *;
    var k := f.name;
    var h', entries' := h.(kin := h.kin + SubsOf([item])), Filed(entries, f, [ValueOf(item)]);
    var c := if k in model && k in homes then model[k] else Some(One(f, item));
    StandsAt(t, model, homes, entries, h, k);
    OneAt(t, if k in model then Some(model[k]) else None, k in homes, k in homes', entries, h, f, item);
    forall x | x in model && x != k ensures KeyStands(t, x, model[x], x in homes', entries', h') {
      StandsAt(t, model, homes, entries, h, x);
      FiledElsewhere(entries, f, [ValueOf(item)]);
      OtherStands(t, x, model[x], x in homes, entries, entries', h, h');
    }
    FiledElsewhere(entries, f, [ValueOf(item)]);
    assert h'.arrays.Keys <= entries'.Keys <= model[k := c].Keys;
    AllStand(t, model[k := c], homes', entries', h');
  }

  lemma FiledElsewhere(entries: map<string, Entry>, f: Field, more: seq<Value>)
    ensures forall x :: x != f.name ==>
              && (x in Filed(entries, f, more) <==> x in entries)
              && (x in entries ==> Filed(entries, f, more)[x] == entries[x])
    ensures more != [] ==> f.name in Filed(entries, f, more)
  {
  }

  /** The key itself; `p` is what the table has under it, if it has it at all. */
  lemma OneAt(t: MessageType, p: Option<Option<Cell>>, atHome: bool, atHome': bool, entries: map<string, Entry>,
              h: Holdings, f: Field, item: Item)
    requires h.arrays.Keys == h.contents.Keys
    requires f.name in t.names && t.names[f.name] == f && !IsArray(f)
    requires match p
             case None => f.name !in entries && f.name !in h.arrays
             case Some(c) => KeyStands(t, f.name, c, atHome, entries, h) && (atHome' <==> atHome)
    ensures f.name !in h.arrays
    ensures KeyStands(t, f.name, if p.Some? && atHome then p.value else Some(One(f, item)), atHome',
                      Filed(entries, f, [ValueOf(item)]), h.(kin := h.kin + SubsOf([item])))
  {
    var was := if f.name in entries then entries[f.name].values else [];
    var now := Filed(entries, f, [ValueOf(item)]);
    assert now[f.name] == Entry(f, was + [ValueOf(item)]);
    AmongMore([], [item], h.kin);
    hide SubsOf;
    hide ValueOf;
  }

  /** The vector and the items of an array once `more` have been pushed: it is dropped when it holds none. */
  ghost function Pushed(h: Holdings, k: string, v: Vector<Item>, more: seq<Item>): Holdings
    requires h.arrays.Keys == h.contents.Keys
  {
    var items := (if k in h.contents then h.contents[k] else []) + more;
    if items == [] then Holdings(h.arrays - {k}, h.contents - {k}, h.kin + SubsOf(more))
    else Holdings(h.arrays[k := v], h.contents[k := items], h.kin + SubsOf(more))
  }

  /** Some more items of an array. */
  lemma ManyMore(t: MessageType, model: map<string, Option<Cell>>, homes: set<string>, homes': set<string>,
                 entries: map<string, Entry>, h: Holdings, f: Field, v: Vector<Item>, more: seq<Item>)
    requires Stands(t, model, homes, entries, h)
    requires f.name in t.names && t.names[f.name] == f && IsArray(f)
    requires forall k <- model :: k in homes' <==> k in homes
    requires f.name in h.arrays ==> v == h.arrays[f.name]
    ensures h.arrays.Keys == h.contents.Keys
    ensures var h' := Pushed(h, f.name, v, more);
            var c := if f.name in h'.arrays then Some(Many(f, v)) else None;
            Stands(t, model[f.name := c], homes', Filed(entries, f, ValuesOf(more)), h')
  {
    hide *;
    var k := f.name;
    StandsAt(t, model, homes, entries, h, k);
    var h', entries' := Pushed(h, k, v, more), Filed(entries, f, ValuesOf(more));
    var c := if k in h'.arrays then Some(Many(f, v)) else None;
    ManyAt(t, if k in model then model[k] else None, k in homes, k in homes', entries, h, f, v, more);
    forall x | x in model && x != k ensures KeyStands(t, x, model[x], x in homes', entries', h') {
      StandsAt(t, model, homes, entries, h, x);
      OtherKeys(h, k, v, more, entries, f);
      OtherStands(t, x, model[x], x in homes, entries, entries', h, h');
    }
    OtherKeys(h, k, v, more, entries, f);
    assert h'.arrays.Keys <= entries'.Keys <= model[k := c].Keys;
    AllStand(t, model[k := c], homes', entries', h');
  }

  lemma StandsAt(t: MessageType, model: map<string, Option<Cell>>, homes: set<string>, entries: map<string, Entry>,
                 h: Holdings, k: string)
    requires Stands(t, model, homes, entries, h)
    ensures h.arrays.Keys == h.contents.Keys && h.arrays.Keys <= entries.Keys <= model.Keys
    ensures k in model ==> KeyStands(t, k, model[k], k in homes, entries, h)
  {
    hide KeyStands;
  }

  lemma AllStand(t: MessageType, model: map<string, Option<Cell>>, homes: set<string>, entries: map<string, Entry>,
                 h: Holdings)
    requires h.arrays.Keys == h.contents.Keys && h.arrays.Keys <= entries.Keys <= model.Keys
    requires forall k <- model :: KeyStands(t, k, model[k], k in homes, entries, h)
    ensures Stands(t, model, homes, entries, h)
  {
    hide KeyStands;
  }

  /** A key is not touched by what happens to others. */
  lemma OtherStands(t: MessageType, x: string, p: Option<Cell>, atHome: bool, entries: map<string, Entry>,
                    entries': map<string, Entry>, h: Holdings, h': Holdings)
    requires h.arrays.Keys == h.contents.Keys && h'.arrays.Keys == h'.contents.Keys
    requires KeyStands(t, x, p, atHome, entries, h)
    requires x in entries' <==> x in entries
    requires x in entries ==> entries'[x] == entries[x]
    requires x in h'.arrays <==> x in h.arrays
    requires x in h.arrays ==> h'.arrays[x] == h.arrays[x] && h'.contents[x] == h.contents[x]
    requires h.kin <= h'.kin
    ensures KeyStands(t, x, p, atHome, entries', h')
  {
  }

  lemma OtherKeys(h: Holdings, k: string, v: Vector<Item>, more: seq<Item>, entries: map<string, Entry>, f: Field)
    requires h.arrays.Keys == h.contents.Keys && k == f.name
    ensures var h', entries' := Pushed(h, k, v, more), Filed(entries, f, ValuesOf(more));
            && h.kin <= h'.kin && h'.arrays.Keys == h'.contents.Keys
            && forall x :: x != k ==>
                 && (x in entries' <==> x in entries) && (x in entries ==> entries'[x] == entries[x])
                 && (x in h'.arrays <==> x in h.arrays)
                 && (x in h.arrays ==> h'.arrays[x] == h.arrays[x] && h'.contents[x] == h.contents[x])
  {
    hide SubsOf;
    hide ValuesOf;
  }

  /** The key itself. */
  lemma ManyAt(t: MessageType, p: Option<Cell>, atHome: bool, atHome': bool, entries: map<string, Entry>, h: Holdings,
               f: Field, v: Vector<Item>, more: seq<Item>)
    requires h.arrays.Keys == h.contents.Keys
    requires f.name in t.names && t.names[f.name] == f && IsArray(f)
    requires KeyStands(t, f.name, p, atHome, entries, h) || (p == None && f.name !in entries && f.name !in h.arrays)
    requires f.name in h.arrays ==> v == h.arrays[f.name]
    ensures var h', entries' := Pushed(h, f.name, v, more), Filed(entries, f, ValuesOf(more));
            && h'.arrays.Keys == h'.contents.Keys
            && (f.name in entries' <==> f.name in h'.arrays)
            && KeyStands(t, f.name, if f.name in h'.arrays then Some(Many(f, v)) else None, atHome', entries', h')
  {
    var k := f.name;
    var was := if k in h.contents then h.contents[k] else [];
    assert ValuesOf(was + more) == ValuesOf(was) + ValuesOf(more);
    assert k in entries <==> k in h.arrays;
    assert k in entries ==> entries[k].values == ValuesOf(was);
    assert ValuesOf([]) == [];
    AmongMore(was, more, h.kin);
    hide ValuesOf;
    hide SubsOf;
    hide Among;
  }

  lemma AmongMore(a: seq<Item>, b: seq<Item>, kin: set<Message>)
    ensures Among(a, kin) ==> Among(a + b, kin + SubsOf(b))
    ensures Among(b, kin + SubsOf(b))
  {
  }

  /** What the table has under the name of an array. */
  lemma ManyThere(t: MessageType, model: map<string, Option<Cell>>, homes: set<string>, entries: map<string, Entry>,
                  h: Holdings, f: Field)
    requires Stands(t, model, homes, entries, h)
    requires f.name in t.names && t.names[f.name] == f && IsArray(f)
    ensures h.arrays.Keys == h.contents.Keys
    ensures f.name in h.arrays <==> f.name in model && model[f.name].Some?
    ensures f.name in h.arrays ==>
              && model[f.name] == Some(Many(f, h.arrays[f.name]))
              && f.name in h.contents && h.contents[f.name] != []
  {
    assert f.name in model ==> KeyStands(t, f.name, model[f.name], f.name in homes, entries, h);
  }

  lemma NothingHeld(t: MessageType, homes: set<string>, h: Holdings)
    requires h == Holdings(map[], map[], {})
    ensures Members(h.arrays) == Prints(h.arrays) == {} && Hold(h.arrays, h.contents) && Unshared(h.arrays)
    ensures Stands(t, map[], homes, map[], h)
  {
  }

  class FieldIndex {
    const table: StringMap<Cell>
    /** The type of the message. */
    ghost const t: MessageType
    /** What the table stands for. */
    ghost var entries: map<string, Entry>
    ghost var held: Holdings
    ghost var repr: set<object>

    ghost predicate Owns()
      reads this`held, this`repr, repr
    {
      && table in repr && table.slot in repr && this !in repr && table.Valid()
      && (forall k <- held.arrays :: held.arrays[k] in repr && held.arrays[k].a in repr)
      && Prints(held.arrays) <= repr && table !in Prints(held.arrays) && table.slot !in Prints(held.arrays)
      && Hold(held.arrays, held.contents) && Unshared(held.arrays)
    }

    /** The keys that sit in their home slots. */
    ghost function Homes(): set<string>
      requires table.Valid()
      reads table, table.slot
    {
      set k | k in table.Model() && table.AtHome(k)
    }

    ghost predicate Valid()
      reads this, repr
    {
      Owns() && Stands(t, table.Model(), Homes(), entries, held)
    }

    constructor (calcHash: string -> nat, max: nat, ghost t: MessageType)
      ensures Valid() && entries == map[] && this.t == t && table.calcHash == calcHash
      ensures table.size == 0 && max <= table.cap && fresh(repr) && held.kin == {}
    {
      hide *;
      var table := new StringMap<Cell>(calcHash, max);
      this.table, this.t := table, t;
      entries, held := map[], Holdings(map[], map[], {});
      repr := {table, table.slot};
      new;
      Started();
    }

    lemma Started()
      requires table.Valid() && table.Model() == map[] && repr == {table, table.slot}
      requires entries == map[] && held == Holdings(map[], map[], {})
      ensures Valid()
    {
      hide *;
      NothingHeld(t, Homes(), held);
      OwnsIs();
      ValidIs();
    }

    lemma OwnsFacts()
      requires Owns()
      ensures table in repr && table.slot in repr && this !in repr && table.Valid()
      ensures Members(held.arrays) <= Prints(held.arrays) <= repr
      ensures table !in Prints(held.arrays) && table.slot !in Prints(held.arrays)
      ensures Hold(held.arrays, held.contents) && Unshared(held.arrays)
      ensures forall k <- table.Model() :: k in Homes() <==> table.AtHome(k)
    {
      hide StringMap.Valid;
      hide StringMap.Model;
      hide StringMap.AtHome;
      hide Hold;
      hide Unshared;
    }

    lemma OwnsIs()
      requires table in repr && table.slot in repr && this !in repr && table.Valid()
      requires Prints(held.arrays) <= repr && table !in Prints(held.arrays) && table.slot !in Prints(held.arrays)
      requires Hold(held.arrays, held.contents) && Unshared(held.arrays)
      ensures Owns()
    {
      hide StringMap.Valid;
      hide Hold;
      hide Unshared;
    }

    lemma ValidIs()
      ensures Valid() <==> Owns() && Stands(t, table.Model(), Homes(), entries, held)
    {
    }

    lemma EntryFacts(k: string)
      requires Valid()
      ensures k in entries ==> k in t.names && entries[k].field == t.names[k] && entries[k].values != []
    {
      hide *;
      ValidIs();
      OwnsFacts();
      EntryOf(t, table.Model(), Homes(), entries, held, k, 0);
    }

    /** The home slots hold what they held, as far as the keys go that there were. */
    twostate lemma HomesAsBefore()
      requires old(table.Valid()) && table.Valid()
      requires HomesStay(old(table.slot[..]), table.slot[..], table.calcHash, old(table.Model()).Keys)
      requires old(table.Model()).Keys <= table.Model().Keys
      ensures forall k <- old(table.Model()) :: k in Homes() <==> k in old(Homes())
    {
      hide StringMap.Valid;
      hide StringMap.Model;
      hide StringMap.AtHome;
      hide HomesStay;
      table.SameHomes();
    }

    /** A value of a field that stands alone: `_pbcM_sp_insert` enters it whether or not there is one already. */
    method FileOne(f: Field, item: Item)
      requires Valid() && f.name in t.names && t.names[f.name] == f && !IsArray(f) && table.size < table.cap
      modifies this, repr
      ensures Valid() && entries == Filed(old(entries), f, [ValueOf(item)])
      ensures repr == old(repr) && table.cap == old(table.cap) && table.size <= old(table.size) + 1
      ensures held.kin == old(held.kin) + SubsOf([item])
    {
      hide *;
      ValidIs();
      OwnsFacts();
      ghost var h, homes := held, Homes();
      Enter(f, item);
      entries := Filed(entries, f, [ValueOf(item)]);
      held := held.(kin := held.kin + SubsOf([item]));
      OwnsIs();
      OneMore(t, old(table.Model()), homes, Homes(), old(entries), h, f, item);
      ValidIs();
    }

    method Enter(f: Field, item: Item)
      requires table.Valid() && table.size < table.cap
      modifies table, table.slot
      ensures table.Valid() && table.slot == old(table.slot)
              && table.cap == old(table.cap) && table.size == old(table.size) + 1
      ensures var m := old(table.Model());
              table.Model()
                == m[f.name := if f.name in m && f.name in old(Homes()) then m[f.name] else Some(One(f, item))]
      ensures forall k <- old(table.Model()) :: k in Homes() <==> k in old(Homes())
    {
      hide *;
      HomesAre();
      table.Insert(f.name, Some(One(f, item)));
      HomesAsBefore();
    }

    lemma HomesAre()
      requires table.Valid()
      ensures forall k <- table.Model() :: k in Homes() <==> table.AtHome(k)
    {
      hide StringMap.Valid;
      hide StringMap.Model;
      hide StringMap.AtHome;
    }

    /** The vector of an array is found, or made, by way of `_pbcM_sp_query_insert`. */
    method OpenArray(f: Field) returns (at: nat, v: Vector<Item>)
      requires table.Valid() && table.size < table.cap
      requires f.name in table.Model() && table.Model()[f.name].Some? ==> table.Model()[f.name].value.Many?
      modifies table, table.slot
      ensures table.Valid() && table.slot == old(table.slot)
              && table.cap == old(table.cap) && table.size <= old(table.size) + 1
      ensures f.name in table.Model() && table.shape.first[f.name] == at < table.cap
      ensures HomesStay(old(table.slot[..]), table.slot[..], table.calcHash, old(table.Model()).Keys)
      ensures if old(f.name in table.Model() && table.Model()[f.name].Some?) then
                table.Model() == old(table.Model()) && v == table.Model()[f.name].value.items
              else
                && table.Model() == old(table.Model())[f.name := Some(Many(f, v))]
                && fresh(v) && fresh(v.a) && v.Valid() && v.Contents() == []
    {
      hide *;
      ghost var slots, keys := table.slot[..], table.Model().Keys;
      at := table.QueryInsert(f.name);
      var p := table.Load(at, f.name);
      if p.Some? { return at, p.value.items; }
      v := NewArray(at, f, slots, keys);
    }

    /** An empty vector is stored under the name. */
    method NewArray(at: nat, f: Field, ghost slots: seq<Slot<Cell>>, ghost keys: set<string>) returns (v: Vector<Item>)
      requires table.Valid() && f.name in table.Model() && table.shape.first[f.name] == at < table.cap
      requires keys <= table.Model().Keys && HomesStay(slots, table.slot[..], table.calcHash, keys)
      modifies table.slot
      ensures table.Valid() && HomesStay(slots, table.slot[..], table.calcHash, keys)
      ensures table.Model() == old(table.Model())[f.name := Some(Many(f, v))]
      ensures fresh(v) && fresh(v.a) && v.Valid() && v.Contents() == []
    {
      hide *;
      ghost var mid, more := table.slot[..], table.Model().Keys;
      v := new Vector<Item>();
      table.Store(at, f.name, Some(Many(f, v)));
      StayTwice(slots, mid, table.slot[..], table.calcHash, keys, more);
    }

    /** NULL takes the place of an empty array. */
    method DropEmpty(at: nat, f: Field, v: Vector<Item>, ghost slots: seq<Slot<Cell>>, ghost keys: set<string>)
      requires table.Valid() && v.Valid() && f.name in table.Model() && table.shape.first[f.name] == at < table.cap
      requires table.Model()[f.name] == Some(Many(f, v))
      requires keys <= table.Model().Keys && HomesStay(slots, table.slot[..], table.calcHash, keys)
      modifies table.slot
      ensures table.Valid() && HomesStay(slots, table.slot[..], table.calcHash, keys)
      ensures table.Model() == old(table.Model())[f.name := if v.Contents() == [] then None else Some(Many(f, v))]
    {
      hide *;
      ContentsSize(v);
      if v.number == 0 {
        ghost var mid, more := table.slot[..], table.Model().Keys;
        table.Store(at, f.name, None);
        StayTwice(slots, mid, table.slot[..], table.calcHash, keys, more);
      }
    }

    /** Items are pushed to the vector that the table has under the name, `known` if there is one. */
    method FillArray(f: Field, items: seq<Item>, ghost known: Option<Vector<Item>>) returns (v: Vector<Item>)
      requires table.Valid() && table.size < table.cap
      requires match known
               case None => f.name in table.Model() ==> table.Model()[f.name] == None
               case Some(u) => u.Valid() && f.name in table.Model() && table.Model()[f.name] == Some(Many(f, u))
      modifies table, table.slot, if known.Some? then {known.value, known.value.a} else {}
      ensures table.Valid() && table.slot == old(table.slot)
              && table.cap == old(table.cap) && table.size <= old(table.size) + 1
      ensures HomesStay(old(table.slot[..]), table.slot[..], table.calcHash, old(table.Model()).Keys)
      ensures v.Valid()
              && table.Model() == old(table.Model())[f.name := if v.Contents() == [] then None else Some(Many(f, v))]
      ensures match known
              case None => fresh(v) && fresh(v.a) && v.Contents() == items
              case Some(u) => v == u && (v.a == old(u.a) || fresh(v.a)) && v.Contents() == old(u.Contents()) + items
    {
      hide *;
      ghost var slots, keys := table.slot[..], table.Model().Keys;
      var at;
      at, v := OpenArray(f);
      ghost var was := v.Contents();
      PushAll(v, items);
      assert [] + items == items;
      DropEmpty(at, f, v, slots, keys);
    }

    /** The same, with the vector among those held, or no longer. */
    method FillHeld(f: Field, items: seq<Item>) returns (v: Vector<Item>)
      requires Owns() && table.size < table.cap
      requires if f.name in held.arrays then
                 f.name in table.Model() && table.Model()[f.name] == Some(Many(f, held.arrays[f.name]))
               else f.name in table.Model() ==> table.Model()[f.name] == None
      requires held.arrays.Keys == held.contents.Keys
      modifies this`held, this`repr, repr
      ensures Owns() && fresh(repr - old(repr)) && table.cap == old(table.cap) && table.size <= old(table.size) + 1
      ensures held == Pushed(old(held), f.name, v, items)
      ensures f.name in old(held.arrays) ==> v == old(held.arrays)[f.name]
      ensures table.Model() == old(table.Model())[f.name := if f.name in held.arrays then Some(Many(f, v)) else None]
      ensures HomesStay(old(table.slot[..]), table.slot[..], table.calcHash, old(table.Model()).Keys)
    {
      hide *;
      OwnsFacts();
      ghost var k, h := f.name, held;
      assert [] + items == items;
      HoldLess(h.arrays, h.contents, k);
      ghost var rest, c := h.arrays - {k}, h.contents - {k};
      v := FillArray(f, items, if k in h.arrays then Some(h.arrays[k]) else None);
      Adopt(f.name, items, v, rest, c);
    }

    /** The books are brought up to date. */
    ghost method Adopt(k: string, items: seq<Item>, v: Vector<Item>, rest: map<string, Vector<Item>>,
                       c: map<string, seq<Item>>)
      requires held.arrays.Keys == held.contents.Keys && rest == held.arrays - {k} && c == held.contents - {k}
      requires table in repr && table.slot in repr && this !in repr && table.Valid()
      requires Members(rest) <= Prints(rest) <= repr && table !in Prints(rest) && table.slot !in Prints(rest)
      requires Hold(rest, c) && Unshared(rest) && v.Valid() && v !in Prints(rest) && v.a !in Prints(rest)
      requires v.Contents() == (if k in held.contents then held.contents[k] else []) + items
      modifies this`held, this`repr
      ensures Owns() && held == Pushed(old(held), k, v, items) && repr == old(repr) + {v, v.a}
      ensures k in held.arrays <==> v.Contents() != []
    {
      hide *;
      HoldMore(rest, c, k, v);
      PushedIs(held, k, v, items);
      held, repr := Pushed(held, k, v, items), repr + {v, v.a};
      assert held.arrays == if v.Contents() == [] then rest else rest[k := v];
      OwnsIs();
    }

    /** Items of an array. */
    method FileMany(f: Field, items: seq<Item>)
      requires Valid() && f.name in t.names && t.names[f.name] == f && IsArray(f) && table.size < table.cap
      modifies this, repr
      ensures Valid() && entries == Filed(old(entries), f, ValuesOf(items))
      ensures fresh(repr - old(repr)) && table.cap == old(table.cap) && table.size <= old(table.size) + 1
      ensures held.kin == old(held.kin) + SubsOf(items)
    {
      hide *;
      ValidIs();
      OwnsFacts();
      ghost var k, h, homes, model := f.name, held, Homes(), table.Model();
      ManyThere(t, model, homes, entries, h, f);
      var v := FillHeld(f, items);
      PushedIs(h, k, v, items);
      OwnsFacts();
      HomesAsBefore();
      entries := Filed(entries, f, ValuesOf(items));
      OwnsFacts();
      ManyMore(t, model, homes, Homes(), old(entries), h, f, v, items);
      ValidIs();
    }

    /** What `_pbcM_sp_query` on the index, and `_pbcA_index`, give for a key. */
    method Get(key: string, at: int) returns (x: Option<Item>)
      requires Valid() && table.CanAsk(key)
      requires key in entries && IsArray(entries[key].field) ==> 0 <= at < |entries[key].values|
      ensures key !in entries ==> x == None
      ensures key in entries ==>
                && entries[key].values != []
                && x.Some? && ValueOf(x.value) == Pick(entries[key], at, table.AtHome(key))
                && SubsOf([x.value]) <= held.kin
    {
      hide *;
      ValidIs();
      OwnsFacts();
      var p := table.Query(key);
      EntryOf(t, table.Model(), Homes(), entries, held, key, at);
      HeldAt(held.arrays, held.contents, key);
      match p {
        case None => x := None;
        case Some(One(_, item)) => x := Some(item);
        case Some(Many(_, items)) =>
          var item := items.Index(at);
          x := Some(item);
      }
    }

    /** The number of values of a key. */
    method Count(key: string) returns (n: nat)
      requires Valid() && table.CanAsk(key)
      ensures n == if key !in entries then 0 else if IsArray(entries[key].field) then |entries[key].values| else 1
    {
      hide *;
      ValidIs();
      OwnsFacts();
      var p := table.Query(key);
      EntryOf(t, table.Model(), Homes(), entries, held, key, 0);
      HeldAt(held.arrays, held.contents, key);
      match p {
        case None => n := 0;
        case Some(One(_, _)) => n := 1;
        case Some(Many(_, items)) => n := items.number; Counted(items);
      }
    }
  }

  /** What the table has under a key, and the entry of the key. */
  lemma EntryOf(t: MessageType, model: map<string, Option<Cell>>, homes: set<string>, entries: map<string, Entry>,
                h: Holdings, key: string, at: int)
    requires Stands(t, model, homes, entries, h)
    ensures h.arrays.Keys == h.contents.Keys
    ensures key !in entries ==> key in model ==> model[key] == None
    ensures key in entries ==>
              && key in t.names && entries[key].field == t.names[key]
              && key in model && model[key].Some? && entries[key].values != []
              && (key in h.arrays <==> IsArray(entries[key].field))
              && match model[key].value
                 case One(_, item) =>
                   && key !in h.arrays && ValueOf(item) == Pick(entries[key], at, key in homes)
                   && SubsOf([item]) <= h.kin
                 case Many(_, items) =>
                   && key in h.arrays && items == h.arrays[key]
                   && |h.contents[key]| == |entries[key].values|
                   && forall i :: 0 <= i < |h.contents[key]| ==>
                        ValueOf(h.contents[key][i]) == entries[key].values[i] && SubsOf([h.contents[key][i]]) <= h.kin
    ensures key in entries && IsArray(entries[key].field) && 0 <= at < |entries[key].values| ==>
              Pick(entries[key], at, key in homes) == entries[key].values[at]
  {
    StandsAt(t, model, homes, entries, h, key);
    hide Stands;
  }

  // ----- a message and those that belong to it -----------------------------------------------

  /** Messages, and the memory that their indexes take up. */
  datatype Kin = Kin(all: set<Message>, memory: set<object>)

  function Nobody(): Kin { Kin({}, {}) }

  function Both(a: Kin, b: Kin): Kin { Kin(a.all + b.all, a.memory + b.memory) }

  /** All of them are whole, and their sub-messages are among them. */
  ghost predicate Family(kin: Kin)
    reads kin.memory
  {
    forall x <- kin.all ::
      && (x.index != null ==> x.index in kin.memory && x.index.repr <= kin.memory)
      && x.Whole(kin.all)
  }

  lemma NoFamily()
    ensures Family(Nobody()) && Nobody() == Kin({}, {})
  {
  }

  lemma FamilyJoins(a: Kin, b: Kin)
    requires Family(a) && Family(b)
    ensures Family(Both(a, b))
  {
    hide FieldIndex.Valid;
  }

  lemma FamilyGrows(kin: Kin, m: Message, memory: set<object>)
    requires Family(kin) && m.Whole(kin.all) && (m.index != null ==> {m.index} + m.index.repr <= memory)
    ensures Family(Kin(kin.all + {m}, kin.memory + memory))
  {
    hide FieldIndex.Valid;
  }

  lemma PushedIs(h: Holdings, k: string, v: Vector<Item>, more: seq<Item>)
    requires h.arrays.Keys == h.contents.Keys
    ensures var items := (if k in h.contents then h.contents[k] else []) + more;
            Pushed(h, k, v, more)
            == if items == [] then Holdings(h.arrays - {k}, h.contents - {k}, h.kin + SubsOf(more))
               else Holdings((h.arrays - {k})[k := v], (h.contents - {k})[k := items], h.kin + SubsOf(more))
    ensures k !in h.arrays ==> [] + more == more
  {
    assert (h.arrays - {k})[k := v] == h.arrays[k := v];
  }

  lemma StayTwice<V>(a: seq<Slot<V>>, b: seq<Slot<V>>, c: seq<Slot<V>>, calcHash: string -> nat, keys: set<string>,
                         more: set<string>)
    requires HomesStay(a, b, calcHash, keys) && keys <= more && HomesStay(b, c, calcHash, more)
    ensures HomesStay(a, c, calcHash, keys)
  {
  }

  method PushAll(v: Vector<Item>, items: seq<Item>)
    requires v.Valid()
    modifies v, v.a
    ensures v.Valid() && v.Contents() == old(v.Contents()) + items && (v.a == old(v.a) || fresh(v.a))
  {
    hide *;
    ghost var was := v.Contents();
    assert was + items[..0] == was;
    for i := 0 to |items|
      invariant v.Valid() && v.Contents() == was + items[..i] && (v.a == old(v.a) || fresh(v.a))
    {
      v.Push(items[i]);
      assert was + items[..i + 1] == was + items[..i] + [items[i]];
    }
    assert items[..|items|] == items;
  }
}
