/** Fields added to message types, and the id index that follows them
    (lualib-src/pbc/src/proto.c, register.c). */
module Extensions {
  import opened Words
  import opened Schemas
  import FixedTables
  import opened IdMaps
  import opened StringMaps
  import opened TypeTables

  /** `struct _message` while it is being built, as a value: the fields pushed, which of them a query for a
      name gives, and once it has been indexed, the fields there were then and which of them a query for an
      id gives. */
  datatype Proto = Proto(pushed: set<Field>, names: map<string, Field>, index: Option<IdIndex>)

  datatype IdIndex = IdIndex(of: set<Field>, ids: map<int, Field>)

  /** An `extend` field with the name of the message it extends. */
  datatype Extension = Extension(extendee: string, field: Field)

  /** Every name of a field is that of the field given for it, and no other name is known. */
  ghost predicate ByName(fields: set<Field>, names: map<string, Field>) {
    && (forall f <- fields :: f.name in names)
    && forall k <- names :: names[k] in fields && names[k].name == k
  }

  ghost predicate ById(fields: set<Field>, ids: map<int, Field>) {
    && (forall f <- fields :: f.id in ids)
    && forall i <- ids :: ids[i] in fields && ids[i].id == i
  }

  /** The id index is of the fields that there are. */
  ghost predicate UpToDate(m: Proto) {
    match m.index
    case None => m.pushed == {}
    case Some(x) => x.of == m.pushed && ById(x.of, x.ids)
  }

  /** No two fields share a name or an id. */
  ghost predicate Apart(fields: set<Field>) {
    forall f <- fields, g <- fields :: f.name == g.name || f.id == g.id ==> f == g
  }

  /** Either table gives every field. */
  ghost predicate AllGiven(fields: set<Field>, names: map<string, Field>, ids: map<int, Field>) {
    forall f <- fields :: f.name in names && names[f.name] == f && f.id in ids && ids[f.id] == f
  }

  /** Both tables give every field exactly when no two fields share a name or an id, and then they agree
      field by field. Otherwise a field that was pushed cannot be reached by its name or by its id. */
  lemma GivenIfApart(fields: set<Field>, names: map<string, Field>, ids: map<int, Field>)
    requires ByName(fields, names) && ById(fields, ids)
    ensures AllGiven(fields, names, ids) <==> Apart(fields)
    ensures Apart(fields) ==> MessageType(names, ids).Coherent()
  {
    if AllGiven(fields, names, ids) {
      forall f, g | f in fields && g in fields && (f.name == g.name || f.id == g.id) ensures f == g { }
    }
    if Apart(fields) {
      forall f | f in fields ensures names[f.name] == f && ids[f.id] == f { }
    }
  }

  /** Two fields of one name and of different ids: the id index gives the one that the names do not, too, and
      leads from its id to its name and from there to the other. */
  lemma SharedName(f: Field, g: Field, names: map<string, Field>, ids: map<int, Field>)
    requires f.name == g.name && f.id != g.id && ByName({f, g}, names) && ById({f, g}, ids)
    ensures !MessageType(names, ids).Coherent()
    ensures ids[f.id] == f && ids[g.id] == g && names[f.name] == names[g.name]
  {
    var lost := if names[f.name] == f then g else f;
    assert lost.id in ids && ids[lost.id] == lost;
  }

  /** What has been pushed to one message. */
  function PushedTo(msgs: map<string, Proto>, name: string): set<Field> {
    if name in msgs then msgs[name].pushed else {}
  }

  /** The fields of message `name` once the first `n` extensions are in. */
  ghost function Extended(fields: set<Field>, exts: seq<Extension>, name: string, n: nat): set<Field>
    requires n <= |exts|
  {
    if n == 0 then fields
    else
      var was := Extended(fields, exts, name, n - 1);
      if exts[n - 1].extendee == name then was + {exts[n - 1].field} else was
  }

  // ----- one message in memory -----------------------------------------------------------------

  /** The table holds the fields under their names. */
  ghost predicate Entries(stored: multiset<(string, Option<Field>)>, fields: set<Field>) {
    && (forall e :: e in stored ==> e.1.Some? && e.1.value.name == e.0 && e.1.value in fields)
    && forall f <- fields :: (f.name, Some(f)) in stored
  }

  /** `struct _message`: the table of its fields by name, and the one by id once it has been indexed. */
  class Message {
    const name: StringMap<Field>
    var id: IdMap?<Field>
    ghost var value: Proto
    ghost var repr: set<object>

    ghost predicate Valid()
      reads this, repr
    {
      && name in repr && name.slot in repr && this !in repr
      && name.Valid() && name.Model() == Pointers(value.names) && Entries(name.Stored(), value.pushed)
      && match value.index
         case None => id == null
         case Some(x) => id != null && IdOwned() && id.Valid() && id.model == x.ids
    }

    ghost predicate IdOwned()
      requires id != null
      reads this, repr
    {
      && id in repr && (id.direct != null ==> id.direct in repr)
      && (id.hash != null ==> id.hash in repr && id.hash.slot in repr)
    }

    constructor (calcHash: string -> nat)
      ensures Valid() && fresh(repr) && value == Proto({}, map[], None)
    {
      hide *;
      var table := new StringMap<Field>(calcHash, 0);
      name, id := table, null;
      value := Proto({}, map[], None);
      repr := {table, table.slot};
      new;
      NoEntries(name);
      Parts();
    }

    /** A field goes into the table of names, whether or not there is one of its name or id: the name gives it from
        now on, unless its home slot holds it for another field already or the table must grow, which takes either. */
    method Push(f: Field)
      requires Valid()
      modifies this, repr
      ensures Valid() && fresh(repr - old(repr)) && ByName(value.pushed, value.names)
      ensures value.pushed == old(value).pushed + {f} && value.index == old(value).index
      ensures old(name.cap > name.size) ==>
                value.names == NameGiven(old(value).names, f, old(name.AtHome(f.name)))
    {
      hide *;
      Parts();
      ghost var fields, before := value.pushed, value.names;
      ghost var names := InsertName(f, fields);
      if old(name.cap > name.size) { NameGivenIs(before, names, f, old(name.AtHome(f.name))); }
      value := value.(pushed := fields + {f}, names := names);
      repr := repr + {name.slot};
      Parts();
    }

    method InsertName(f: Field, ghost fields: set<Field>) returns (ghost names: map<string, Field>)
      requires name.Valid() && Entries(name.Stored(), fields)
      modifies name, name.slot
      ensures name.Valid() && Entries(name.Stored(), fields + {f}) && name.Model() == Pointers(names)
      ensures ByName(fields + {f}, names)
      ensures name.slot == old(name.slot) || fresh(name.slot)
      ensures old(name.cap > name.size) ==>
                name.Model() == old(name.Model())[f.name := if old(f.name in name.Model() && name.AtHome(f.name))
                                                            then old(name.Model())[f.name] else Some(f)]
    {
      hide *;
      name.Insert(f.name, Some(f));
      EntriesMore(old(name.Stored()), fields, f);
      names := GivenNames(name, fields + {f});
    }

    /** The id index is made afresh from the table of names, in the order of its slots, and stands for that list. */
    method MakeIndex() returns (ghost table: seq<(i32, Field)>)
      requires Valid() && value.pushed != {}
      modifies this
      ensures Valid() && fresh(repr - old(repr)) && UpToDate(value)
      ensures value.pushed == old(value).pushed && value.names == old(value).names
      ensures table == Tabulate(EntriesFrom(name.slot[..], 0)) && id != null && id.StandsFor(table)
    {
      hide *;
      var m;
      m, table := IndexOfNames();
      Parts();
      id := m;
      value := value.(index := Some(IdIndex(value.pushed, m.model)));
      repr := repr + {m} + (if m.direct != null then {m.direct} else {m.hash, m.hash.slot});
      Parts();
      NowUpToDate(value);
    }

    method IndexOfNames() returns (m: IdMap<Field>, ghost list: seq<(i32, Field)>)
      requires Valid() && value.pushed != {}
      ensures m.Valid() && ById(value.pushed, m.model)
      ensures list == Tabulate(EntriesFrom(name.slot[..], 0)) && m.StandsFor(list)
      ensures fresh(m)
      ensures if m.direct != null then m.hash == null && fresh(m.direct)
              else m.hash != null && fresh(m.hash) && fresh(m.hash.slot)
    {
      hide *;
      Parts();
      ghost var fields := value.pushed;
      var table := FieldTable(fields);
      list := table;
      m := New(table);
      IndexedById(fields, table, m);
    }

    /** The list that the id index is made from. */
    method FieldTable(ghost fields: set<Field>) returns (table: seq<(i32, Field)>)
      requires name.Valid() && Entries(name.Stored(), fields) && fields != {}
      ensures table == Tabulate(EntriesFrom(name.slot[..], 0))
      ensures table != [] && forall e <- table :: e.1 in fields && e.0 == e.1.id
      ensures forall f <- fields :: (f.id, f) in table
    {
      hide *;
      var all := name.List();
      name.ListedAll(all);
      table := Tabulate(all);
      TableOfNames(name.Stored(), fields, all, table);
    }

    lemma Parts()
      ensures Valid() <==>
                && name in repr && name.slot in repr && this !in repr
                && name.Valid() && name.Model() == Pointers(value.names) && Entries(name.Stored(), value.pushed)
                && match value.index
                   case None => id == null
                   case Some(x) =>
                     && id != null && id in repr && (id.direct != null ==> id.direct in repr)
                     && (id.hash != null ==> id.hash in repr && id.hash.slot in repr) && id.Valid() && id.model == x.ids
    {
      hide StringMap.Valid;
      hide StringMap.Model;
      hide StringMap.Stored;
      hide IdMap.Valid;
      hide Entries;
      hide Pointers;
    }

    /** What the table of names gives. */
    lemma NamesGiven()
      requires Valid()
      ensures ByName(value.pushed, value.names)
    {
      hide *;
      Parts();
      ghost var names := GivenNames(name, value.pushed);
      PointersApart(names, value.names);
    }
  }

  lemma NoEntries(table: StringMap<Field>)
    requires table.Valid() && table.Model() == map[] && table.Stored() == multiset{}
    ensures Entries(table.Stored(), {}) && table.Model() == Pointers(map[])
  {
    hide StringMap.Valid;
    hide StringMap.Model;
    hide StringMap.Stored;
  }

  lemma EntriesMore(stored: multiset<(string, Option<Field>)>, fields: set<Field>, f: Field)
    requires Entries(stored, fields)
    ensures Entries(stored + multiset{(f.name, Some(f))}, fields + {f})
  {
  }

  /** The fields that queries for names give. */
  lemma GivenNames(table: StringMap<Field>, fields: set<Field>) returns (names: map<string, Field>)
    requires table.Valid() && Entries(table.Stored(), fields)
    ensures table.Model() == Pointers(names) && ByName(fields, names)
  {
    hide *;
    table.StoredMeans();
    names := Choose(table.Model(), table.Stored(), fields);
  }

  lemma Choose(model: map<string, Option<Field>>, stored: multiset<(string, Option<Field>)>, fields: set<Field>)
    returns (names: map<string, Field>)
    requires (forall e :: e in stored ==> e.0 in model) && forall k <- model :: (k, model[k]) in stored
    requires Entries(stored, fields)
    ensures model == Pointers(names) && ByName(fields, names)
  {
    forall k <- model ensures model[k].Some? && model[k].value in fields && model[k].value.name == k {
      assert (k, model[k]) in stored;
    }
    forall f <- fields ensures f.name in model {
      var e := (f.name, Some(f));
      assert e in stored;
    }
    hide Entries;
    names := map k <- model :: model[k].value;
  }

  /** What a name gives after one more insertion into a table with room. */
  ghost function NameGiven(names: map<string, Field>, f: Field, atHome: bool): map<string, Field> {
    names[f.name := if f.name in names && atHome then names[f.name] else f]
  }

  lemma NameGivenIs(names: map<string, Field>, names': map<string, Field>, f: Field, atHome: bool)
    requires var m := Pointers(names);
             Pointers(names') == m[f.name := if f.name in m && atHome then m[f.name] else Some(f)]
    ensures names' == NameGiven(names, f, atHome)
  {
    PointersOf(names);
    PointersOf(names');
    var m, now := Pointers(names), NameGiven(names, f, atHome);
    assert names'.Keys == now.Keys by { assert Pointers(names').Keys == m.Keys + {f.name}; }
    forall k <- names' ensures names'[k] == now[k] { assert Pointers(names')[k] == Some(names'[k]); }
  }

  lemma PointersApart(a: map<string, Field>, b: map<string, Field>)
    requires Pointers(a) == Pointers(b)
    ensures a == b
  {
    PointersOf(a);
    PointersOf(b);
    hide Pointers;
    assert a.Keys == b.Keys;
    forall k <- a ensures a[k] == b[k] { assert Pointers(a)[k] == Pointers(b)[k]; }
  }

  lemma NowUpToDate(m: Proto)
    requires m.index.Some? && m.index.value.of == m.pushed && ById(m.pushed, m.index.value.ids)
    ensures UpToDate(m)
  {
    hide ById;
  }

  /** `_set_table`, called for all fields. */
  function Tabulate(all: seq<(string, Field)>): (table: seq<(i32, Field)>)
    ensures |table| == |all| && forall k :: 0 <= k < |all| ==> table[k] == (all[k].1.id, all[k].1)
  {
    seq(|all|, k requires 0 <= k < |all| => (all[k].1.id, all[k].1))
  }

  /** The list that the id index is made from has all fields, each under its id. */
  lemma TableOfNames(stored: multiset<(string, Option<Field>)>, fields: set<Field>, all: seq<(string, Field)>,
                     table: seq<(i32, Field)>)
    requires Entries(stored, fields) && fields != {} && table == Tabulate(all)
    requires forall e <- all :: (e.0, Some(e.1)) in stored
    requires forall e :: e in stored && e.1.Some? ==> (e.0, e.1.value) in all
    ensures table != [] && forall e <- table :: e.1 in fields && e.0 == e.1.id
    ensures forall f <- fields :: (f.id, f) in table
  {
    forall f <- fields ensures (f.id, f) in table {
      assert (f.name, Some(f)) in stored;
      assert (f.name, f) in all;
      var i :| 0 <= i < |all| && all[i] == (f.name, f);
      assert table[i] == (f.id, f);
    }
    forall e <- table ensures e.1 in fields && e.0 == e.1.id {
      var i :| 0 <= i < |table| && table[i] == e;
      assert (all[i].0, Some(all[i].1)) in stored;
    }
  }

  lemma IndexedById(fields: set<Field>, table: seq<(i32, Field)>, m: IdMap<Field>)
    requires m.Valid() && m.StandsFor(table)
    requires forall e <- table :: e.1 in fields && e.0 == e.1.id
    requires forall f <- fields :: (f.id, f) in table
    ensures ById(fields, m.model)
  {
    hide *;
    Choice(m, table);
    FixedTables.MapsFromList(table);
    var ids := m.model;
    forall f <- fields ensures f.id in ids {
      var i :| 0 <= i < |table| && table[i] == (f.id, f);
      assert table[i].0 == f.id;
    }
    forall i <- ids ensures ids[i] in fields && ids[i].id == i { assert (i, ids[i]) in table; }
    ByIdIs(fields, ids);
  }

  lemma ByIdIs(fields: set<Field>, ids: map<i32, Field>)
    requires (forall f <- fields :: f.id in ids) && forall i <- ids :: ids[i] in fields && ids[i].id == i
    ensures ById(fields, ids)
  {
  }

  // ----- all messages ------------------------------------------------------------------------

  /** The messages stand for the values, and lie apart in the memory. */
  ghost predicate Hold(ms: map<string, Message>, vs: map<string, Proto>, memory: set<object>)
    reads memory
  {
    && ms.Keys == vs.Keys
    && (forall k <- ms :: ms[k] in memory && ms[k].repr <= memory && ms[k].Valid() && ms[k].value == vs[k])
    && forall j <- ms, k <- ms :: j != k ==> ({ms[j]} + ms[j].repr) !! ({ms[k]} + ms[k].repr)
  }

  lemma HoldLess(ms: map<string, Message>, vs: map<string, Proto>, memory: set<object>, k: string)
    requires Hold(ms, vs, memory) && k in ms
    ensures k in vs && ms[k].Valid() && ms[k].value == vs[k] && {ms[k]} + ms[k].repr <= memory
    ensures Hold(ms - {k}, vs - {k}, memory - ({ms[k]} + ms[k].repr))
  {
    hide Message.Valid;
  }

  lemma HoldMore(ms: map<string, Message>, vs: map<string, Proto>, memory: set<object>, k: string, m: Message)
    requires Hold(ms, vs, memory) && k !in ms && m.Valid() && ({m} + m.repr) !! memory
    ensures Hold(ms[k := m], vs[k := m.value], memory + ({m} + m.repr))
  {
    hide Message.Valid;
  }

  lemma HoldFacts(ms: map<string, Message>, vs: map<string, Proto>, memory: set<object>)
    requires Hold(ms, vs, memory)
    ensures ms.Keys == vs.Keys
  {
    hide Message.Valid;
  }

  /** `struct pbc_env`, as far as message types go. */
  class ProtoEnv {
    /** `p->msgs` */
    const table: StringMap<Message>
    ghost var messages: map<string, Message>
    /** What the messages stand for. */
    ghost var msgs: map<string, Proto>
    ghost var memory: set<object>

    ghost predicate Valid()
      reads this, memory, table, table.slot
    {
      && this !in memory && table !in memory && table.slot !in memory
      && table.Valid() && table.Distinct() && table.Model() == Pointers(messages)
      && Hold(messages, msgs, memory)
    }

    /** A message can be looked for under the name, now and whatever is added. */
    ghost predicate MayAsk(name: string)
      reads this
    {
      table.calcHash(name) != 0 || name in msgs
    }

    constructor (calcHash: string -> nat)
      ensures Valid() && msgs == map[] && memory == {} && fresh(table) && fresh(table.slot)
    {
      var t := new StringMap<Message>(calcHash, 0);
      table, messages, msgs, memory := t, map[], map[], {};
      new;
      hide *;
      NoMessages(table);
      ValidIs();
    }

    lemma ValidIs()
      ensures Valid() <==>
                && this !in memory && table !in memory && table.slot !in memory
                && table.Valid() && table.Distinct() && table.Model() == Pointers(messages)
                && Hold(messages, msgs, memory)
    {
      hide StringMap.Valid;
      hide StringMap.Distinct;
      hide StringMap.Model;
      hide Hold;
    }

    /** The query for a message. */
    method Find(name: string) returns (m: Message?)
      requires Valid() && MayAsk(name)
      ensures if name in msgs then name in messages && m == messages[name] else m == null
    {
      MayAskIs(name);
      hide *;
      ValidIs();
      HoldFacts(messages, msgs, memory);
      PointersOf(messages);
      if name in msgs { table.HeldCanAsk(name); }
      table.ValidFacts();
      table.CanAskMeans(name);
      var p := table.Query(name);
      m := match p case None => null case Some(x) => x;
    }

    lemma MayAskIs(name: string)
      ensures MayAsk(name) <==> table.calcHash(name) != 0 || name in msgs
    {
    }

    /** What queries for names give, for every message. */
    lemma NamesGiven(name: string)
      requires Valid() && name in msgs
      ensures ByName(msgs[name].pushed, msgs[name].names)
    {
      hide *;
      ValidIs();
      HoldFacts(messages, msgs, memory);
      HoldLess(messages, msgs, memory, name);
      messages[name].NamesGiven();
    }

    /** A new message without fields. */
    method AddMessage(name: string) returns (m: Message)
      requires Valid() && name !in msgs
      modifies this, table, table.slot
      ensures Valid() && fresh(memory - old(memory)) && (table.slot == old(table.slot) || fresh(table.slot))
      ensures msgs == old(msgs)[name := Proto({}, map[], None)] && name in messages && m == messages[name]
    {
      hide *;
      ValidIs();
      HoldFacts(messages, msgs, memory);
      PointersOf(messages);
      m := new Message(table.calcHash);
      InsertMessage(name, m);
      Adopt(name, m);
    }

    /** The message is one of those held. */
    ghost method Adopt(name: string, m: Message)
      requires Hold(messages, msgs, memory) && name !in messages && m.Valid() && ({m} + m.repr) !! memory
      requires this !in memory + {m} + m.repr && table !in memory + {m} + m.repr && table.slot !in memory + {m} + m.repr
      requires table.Valid() && table.Distinct() && table.Model() == Pointers(messages[name := m])
      modifies this`messages, this`msgs, this`memory
      ensures Valid() && messages == old(messages)[name := m] && msgs == old(msgs)[name := m.value]
      ensures memory == old(memory) + ({m} + m.repr)
    {
      hide *;
      HoldMore(messages, msgs, memory, name, m);
      messages, msgs, memory := messages[name := m], msgs[name := m.value], memory + ({m} + m.repr);
      ValidIs();
    }

    method InsertMessage(name: string, m: Message)
      requires table.Valid() && table.Distinct() && table.Model() == Pointers(messages) && name !in messages
      modifies table, table.slot
      ensures table.Valid() && table.Distinct() && table.Model() == Pointers(messages[name := m])
      ensures table.slot == old(table.slot) || fresh(table.slot)
    {
      hide *;
      PointersOf(messages);
      PointersMore(messages, name, m);
      table.Insert(name, Some(m));
    }

    /** `_pbcP_push_message` */
    method PushMessage(name: string, f: Field)
      requires Valid() && MayAsk(name)
      modifies this, memory, table, table.slot
      ensures Valid() && fresh(memory - old(memory)) && (table.slot == old(table.slot) || fresh(table.slot))
      ensures name in msgs && msgs[name].pushed == PushedTo(old(msgs), name) + {f}
      ensures ByName(msgs[name].pushed, msgs[name].names) && SameBut(old(msgs), msgs, name)
    {
      PushedIs(msgs, name);
      hide *;
      ghost var was := msgs;
      var m := Find(name);
      if m == null { m := AddMessage(name); }
      PushKnown(name, m, f);
      NamesGiven(name);
      OthersSame(was, msgs, name);
    }

    method PushKnown(name: string, m: Message, f: Field)
      requires Valid() && name in msgs && name in messages && m == messages[name]
      modifies this`messages, this`msgs, this`memory, memory
      ensures table.slot == old(table.slot)
      ensures Valid() && fresh(memory - old(memory)) && name in msgs
      ensures msgs[name].pushed == old(msgs)[name].pushed + {f} && msgs - {name} == old(msgs) - {name}
    {
      hide *;
      ValidIs();
      HoldFacts(messages, msgs, memory);
      HoldLess(messages, msgs, memory, name);
      ghost var rest, vs, others := messages - {name}, msgs - {name}, memory - ({m} + m.repr);
      m.Push(f);
      HoldMore(rest, vs, others, name, m);
      assert messages == rest[name := m];
      msgs, memory := vs[name := m.value], others + ({m} + m.repr);
      ValidIs();
    }

    /** `_pbcP_init_message`: a new message, or one with fields, whose id index is made afresh. */
    method InitMessage(name: string)
      requires Valid() && MayAsk(name) && (name in msgs ==> msgs[name].pushed != {})
      modifies this, memory, table, table.slot
      ensures Valid() && fresh(memory - old(memory)) && (table.slot == old(table.slot) || fresh(table.slot))
      ensures name in msgs && msgs[name].pushed == PushedTo(old(msgs), name) && UpToDate(msgs[name])
      ensures name in old(msgs) ==> msgs[name].names == old(msgs)[name].names
      ensures SameBut(old(msgs), msgs, name)
    {
      PushedIs(msgs, name);
      hide *;
      ghost var was := msgs;
      var m := Find(name);
      if m == null {
        m := AddMessage(name);
        NothingToIndex();
        OthersSame(was, msgs, name);
        return;
      }
      IndexKnown(name, m);
      OthersSame(was, msgs, name);
    }

    method IndexKnown(name: string, m: Message)
      requires Valid() && name in msgs && name in messages && m == messages[name] && msgs[name].pushed != {}
      modifies this`messages, this`msgs, this`memory, memory
      ensures table.slot == old(table.slot)
      ensures Valid() && fresh(memory - old(memory)) && name in msgs && UpToDate(msgs[name])
      ensures msgs[name].pushed == old(msgs)[name].pushed && msgs[name].names == old(msgs)[name].names
      ensures msgs - {name} == old(msgs) - {name}
    {
      hide *;
      ValidIs();
      HoldFacts(messages, msgs, memory);
      HoldLess(messages, msgs, memory, name);
      ghost var rest, vs, others := messages - {name}, msgs - {name}, memory - ({m} + m.repr);
      ghost var _ := m.MakeIndex();
      HoldMore(rest, vs, others, name, m);
      assert messages == rest[name := m];
      msgs, memory := vs[name := m.value], others + ({m} + m.repr);
      ValidIs();
    }

    /** `_register_extension`: a message is indexed when the next extension is for another one, and
        the last message at the end. */
    method RegisterExtension(exts: seq<Extension>)
      requires Valid() && AllUpToDate(msgs, None) && forall e <- exts :: MayAsk(e.extendee)
      modifies this, memory, table, table.slot
      ensures Valid() && AllUpToDate(msgs, None)
      ensures Progress(old(msgs), msgs, exts, |exts|)
    {
      ghost var was := msgs;
      ProgressFirst(was, exts);
      hide *;
      if exts == [] { return; }
      var last: Option<string> := None;
      for i := 0 to |exts|
        invariant Valid() && fresh(memory - old(memory)) && (table.slot == old(table.slot) || fresh(table.slot))
        invariant Progress(was, msgs, exts, i) && AllUpToDate(msgs, last)
        invariant forall e <- exts :: MayAsk(e.extendee)
        invariant last.None? <==> i == 0
        invariant last.Some? ==> last.value in msgs && msgs[last.value].pushed != {}
      {
        last := RegisterOne(was, exts, i, last);
      }
      ghost var mid := msgs;
      MayAskIs(last.value);
      InitMessage(last.value);
      PushedIs(mid, last.value);
      InitSync(mid, msgs, last.value, None);
      ProgressSame(was, mid, msgs, exts, |exts|, last.value);
    }

    lemma AsksAre(exts: seq<Extension>)
      ensures (forall e <- exts :: MayAsk(e.extendee))
         <==> forall e <- exts :: table.calcHash(e.extendee) != 0 || e.extendee in msgs
    {
    }

    /** One turn of the loop. */
    method RegisterOne(ghost was: map<string, Proto>, exts: seq<Extension>, i: nat, last: Option<string>)
      returns (next: Option<string>)
      requires Valid() && i < |exts| && Progress(was, msgs, exts, i) && AllUpToDate(msgs, last)
      requires forall e <- exts :: MayAsk(e.extendee)
      requires last.None? <==> i == 0
      requires last.Some? ==> last.value in msgs && msgs[last.value].pushed != {}
      modifies this, memory, table, table.slot
      ensures Valid() && fresh(memory - old(memory)) && (table.slot == old(table.slot) || fresh(table.slot))
      ensures Progress(was, msgs, exts, i + 1) && AllUpToDate(msgs, next) && forall e <- exts :: MayAsk(e.extendee)
      ensures next.Some? && next.value in msgs && msgs[next.value].pushed != {}
    {
      hide *;
      var e := exts[i];
      ghost var before := msgs;
      AsksAre(exts);
      PushMessage(e.extendee, e.field);
      SameAsks(before, msgs, e.extendee);
      AsksAre(exts);
      ProgressStep(was, before, msgs, exts, i);
      assert e.field in msgs[e.extendee].pushed;
      if last == None || last.value == e.extendee {
        PushSync(before, msgs, e.extendee, last);
        return Some(e.extendee);
      }
      ghost var mid := msgs;
      StillThere(before, msgs, e.extendee, last.value);
      MayAskIs(last.value);
      InitMessage(last.value);
      SameAsks(mid, msgs, last.value);
      AsksAre(exts);
      PushedIs(mid, last.value);
      StillThere(mid, msgs, last.value, e.extendee);
      ProgressSame(was, mid, msgs, exts, i + 1, last.value);
      SwitchSync(before, mid, msgs, e.extendee, last.value);
      next := Some(e.extendee);
    }
  }

  lemma NoMessages(table: StringMap<Message>)
    requires table.Valid() && table.Model() == map[]
    ensures table.Model() == Pointers(map[]) && Hold(map[], map[], {})
  {
    hide StringMap.Valid;
    hide StringMap.Model;
    hide Message.Valid;
  }

  lemma PointersMore<V>(names: map<string, V>, k: string, v: V)
    ensures Pointers(names[k := v]) == Pointers(names)[k := Some(v)]
  {
  }

  /** Messages stay. */
  lemma SameAsks(before: map<string, Proto>, now: map<string, Proto>, name: string)
    requires SameBut(before, now, name) && name in now
    ensures before.Keys <= now.Keys
  {
  }

  lemma PushedIs(msgs: map<string, Proto>, name: string)
    ensures PushedTo(msgs, name) == if name in msgs then msgs[name].pushed else {}
  {
  }

  lemma NothingToIndex()
    ensures UpToDate(Proto({}, map[], None))
  {
  }

  lemma OthersSame(before: map<string, Proto>, now: map<string, Proto>, name: string)
    requires before - {name} == now - {name}
    ensures SameBut(before, now, name)
  {
    forall other | other != name
      ensures (other in now <==> other in before) && (other in now ==> now[other] == before[other])
    {
      assert other in now - {name} <==> other in before - {name};
      if other in now { assert (now - {name})[other] == (before - {name})[other]; }
    }
  }

  /** Nothing but message `name` has changed. */
  ghost predicate SameBut(before: map<string, Proto>, now: map<string, Proto>, name: string) {
    forall other :: other != name ==>
      (other in now <==> other in before) && (other in now ==> now[other] == before[other])
  }

  /** The id indexes of all messages, but for one perhaps, are up to date. */
  ghost predicate AllUpToDate(msgs: map<string, Proto>, but: Option<string>) {
    forall name <- msgs :: Some(name) != but ==> UpToDate(msgs[name])
  }

  lemma InitSync(before: map<string, Proto>, now: map<string, Proto>, name: string, but: Option<string>)
    requires AllUpToDate(before, Some(name)) && SameBut(before, now, name) && name in now && UpToDate(now[name])
    ensures AllUpToDate(now, but)
  {
    hide UpToDate;
  }

  lemma PushSync(before: map<string, Proto>, now: map<string, Proto>, name: string, last: Option<string>)
    requires AllUpToDate(before, last) && SameBut(before, now, name) && (last == None || last == Some(name))
    ensures AllUpToDate(now, Some(name))
  {
    hide UpToDate;
  }

  /** A push to one message and the indexing of another. */
  lemma SwitchSync(before: map<string, Proto>, mid: map<string, Proto>, now: map<string, Proto>, name: string,
                   last: string)
    requires AllUpToDate(before, Some(last)) && SameBut(before, mid, name) && SameBut(mid, now, last)
    requires last in now && UpToDate(now[last])
    ensures AllUpToDate(now, Some(name))
  {
    hide UpToDate;
  }

  lemma StillThere(before: map<string, Proto>, now: map<string, Proto>, name: string, other: string)
    requires SameBut(before, now, name) && other != name && other in before
    ensures other in now && now[other] == before[other]
  {
  }

  /** The fields after `n` extensions. */
  ghost predicate Progress(was: map<string, Proto>, now: map<string, Proto>, exts: seq<Extension>, n: nat) {
    && n <= |exts|
    && forall name {:trigger PushedTo(now, name)} ::
         PushedTo(now, name) == Extended(PushedTo(was, name), exts, name, n)
  }

  lemma ProgressStep(was: map<string, Proto>, before: map<string, Proto>, now: map<string, Proto>,
                     exts: seq<Extension>, i: nat)
    requires Progress(was, before, exts, i) && i < |exts|
    requires var e := exts[i];
      && e.extendee in now && now[e.extendee].pushed == PushedTo(before, e.extendee) + {e.field}
      && SameBut(before, now, e.extendee)
    ensures Progress(was, now, exts, i + 1)
  {
    forall name ensures PushedTo(now, name) == Extended(PushedTo(was, name), exts, name, i + 1) {
      assert PushedTo(before, name) == Extended(PushedTo(was, name), exts, name, i);
    }
  }

  lemma ProgressSame(was: map<string, Proto>, before: map<string, Proto>, now: map<string, Proto>, exts: seq<Extension>,
                     i: nat, name: string)
    requires Progress(was, before, exts, i) && SameBut(before, now, name)
    requires name in before && name in now && now[name].pushed == before[name].pushed
    ensures Progress(was, now, exts, i)
  {
    hide Extended;
    forall other ensures PushedTo(now, other) == Extended(PushedTo(was, other), exts, other, i) {
      assert PushedTo(before, other) == Extended(PushedTo(was, other), exts, other, i);
    }
  }

  lemma ProgressFirst(was: map<string, Proto>, exts: seq<Extension>)
    ensures Progress(was, was, exts, 0)
  {
  }
}
