/** Messages being read (lualib-src/pbc/src/rmessage.c). */
module RMessages {
  import opened Words
  import opened Wire
  import opened Varints
  import opened Contexts
  import opened Schemas
  import opened PackedArrays
  import opened Indexes
  import opened StringMaps
  import opened TypeTables
  import opened Enums

  // ----- numbers -------------------------------------------------------------------------

  /** The number that a reader makes of the two words found on the wire; of an enum the getters
      show the low word only. */
  function Plain(ptype: PType, v: LongLong): LongLong {
    match ptype
    case Enum => LongLong(v.low, 0)
    case _ => Raw(ptype, v)
  }

  /** The numbers of a packed field as the getters show them. */
  function Shown(ptype: PType, s: seq<LongLong>): (r: seq<LongLong>)
    ensures |r| == |s|
    ensures forall k :: 0 <= k < |s| ==> r[k] == if ptype == Enum then LongLong(s[k].low, 0) else s[k]
  {
    seq(|s|, k requires 0 <= k < |s| => if ptype == Enum then LongLong(s[k].low, 0) else s[k])
  }

  // ----- the reference reader -----------------------------------------------------------------

  function Numbers(s: seq<LongLong>): (r: seq<Value>)
    ensures |r| == |s| && forall k :: 0 <= k < |s| ==> r[k] == Number(s[k])
  {
    seq(|s|, k requires 0 <= k < |s| => Number(s[k]))
  }

  /** What one atom adds to field `f` of a message with the bytes `b`. Of a packed field the two words
      of the atom count as a slice, whatever its wire type. A sub-message that cannot be read counts
      when it stands alone and is left out of an array. A slice that does not lie in the message is not
      looked at (see `SafeAtom`). */
  function AtomValues(env: Env, f: Field, a: Atom, b: seq<byte>): seq<Value>
    requires |b| < 0x8000_0000
    decreases |b|, 0
  {
    if f.rule == Label.Packed then Numbers(Shown(f.ptype, Unpacked(f.ptype, SliceOf(b, a.Start(), a.Size()))))
    else if IsNumeric(f.ptype) then [Number(Plain(f.ptype, a.Number()))]
    else if a.WireType() != WT_LEND || !Inside(a, b) then []
    else
      var slice := b[a.low..a.hi];
      if f.ptype == PType.Message then
        match Read(env, f.typeName, slice)
        case None => if f.rule == Repeated then [] else [Broken]
        case Some(m) => [Sub(m)]
      else if f.ptype == Group then []
      else [Text(slice)]
  }

  /** What the first `n` atoms file under `key`, in wire order. */
  function Occurrences(env: Env, t: MessageType, b: seq<byte>, atoms: seq<Atom>, key: string, n: nat): seq<Value>
    requires |b| < 0x8000_0000 && n <= |atoms|
    decreases |b|, 1, n
  {
    if n == 0 then []
    else
      var a := atoms[n - 1];
      Occurrences(env, t, b, atoms, key, n - 1)
      + if a.Id() in t.ids && t.ids[a.Id()].name == key then AtomValues(env, t.ids[a.Id()], a, b) else []
  }

  function Index(env: Env, t: MessageType, b: seq<byte>, atoms: seq<Atom>, n: nat): map<string, Entry>
    requires |b| < 0x8000_0000 && n <= |atoms|
    decreases |b|, 2
  {
    map key | key in t.names && Occurrences(env, t, b, atoms, key, n) != [] ::
      Entry(t.names[key], Occurrences(env, t, b, atoms, key, n))
  }

  /** The message of type `typeName` with the bytes `b`. */
  function Read(env: Env, typeName: string, b: seq<byte>): Option<RMessage>
    requires |b| < 0x8000_0000
    decreases |b|, 3
  {
    if typeName !in env then None
    else
      match Taken(b)
      case All(atoms) => Some(RMessage(typeName, Index(env, env[typeName], b, atoms, |atoms|)))
      case _ => None
  }

  // ----- what may be read ------------------------------------------------------------------------

  /** The message may be handed to the reader: what comes of it does not hang on the scratch buffer, the
      parser is not lost, and all that is read of packed fields and slices, at any depth, is there. */
  ghost predicate SafeToRead(env: Env, typeName: string, b: seq<byte>, beyond: seq<byte>)
    requires |b| < 0x8000_0000
    decreases |b|
  {
    typeName in env ==>
      && Tame(b)
      && (Taken(b).All? ==>
            forall a | a in Taken(b).atoms && a.Id() in env[typeName].ids ::
              SafeAtom(env, env[typeName].ids[a.Id()], a, b, beyond))
  }

  ghost predicate SafeAtom(env: Env, f: Field, a: Atom, b: seq<byte>, beyond: seq<byte>)
    requires |b| < 0x8000_0000
    decreases |b|, 0
  {
    && (f.rule == Label.Packed ==> PackedSafe(f.ptype, a, b, beyond))
    && (f.rule != Label.Packed && f.ptype in {PType.Message, String, PType.Bytes} && a.WireType() == WT_LEND ==>
          && Inside(a, b)
          && (f.ptype == PType.Message ==> SafeToRead(env, f.typeName, b[a.low..a.hi], b[a.hi..] + beyond)))
  }

  /** The message 08 05 does so, too, but nothing is read and nothing filed. */
  lemma PackedNothing(env: Env, f: Field, beyond: seq<byte>)
    requires f.rule == Label.Packed && f.ptype == Int32
    ensures var b, a := [0x08, 0x05], Atom(8, 5, 0);
            ParseAll(b, 0) == Some([a]) && PackedSafe(Int32, a, b, beyond) && AtomValues(env, f, a, b) == []
  {
    hide *;
    VarintSteps(5);
    assert [0x08] + Varint(5) == [0x08, 0x05];
    NumberAlone(5);
    SizeBelowZero(env, f, [0x08, 0x05], beyond);
  }

  lemma SizeBelowZero(env: Env, f: Field, b: seq<byte>, beyond: seq<byte>)
    requires f.rule == Label.Packed && f.ptype == Int32 && |b| < 0x8000_0000
    ensures var a := Atom(8, 5, 0);
            PackedSafe(Int32, a, b, beyond) && AtomValues(env, f, a, b) == []
  {
  }

  /** A message that is plainly bad may be handed to the reader, which refuses it, whatever lies behind it. */
  lemma RefusedSafely(env: Env, typeName: string, b: seq<byte>, beyond: seq<byte>)
    requires typeName in env && |b| < 0x8000_0000 && ParseAll(b, 0) == None && PlainlyBad(FirstBad(b, 0))
    ensures SafeToRead(env, typeName, b, beyond) && Read(env, typeName, b) == None
  {
    PlainlyRefused(b);
    hide Tame;
    hide Taken;
    hide SafeAtom;
    hide PlainlyBad;
    hide ParseAll;
    hide FirstBad;
  }

  /** The message FA FF FF FF 8F 00 is one the format does not allow, but it is read as one without fields. */
  lemma TagReadAsMessage(env: Env, typeName: string, beyond: seq<byte>)
    requires WellFormed(env) && typeName in env
    ensures var b := [0xFA, 0xFF, 0xFF, 0xFF, 0x8F, 0];
            SafeToRead(env, typeName, b, beyond) && Read(env, typeName, b) == Some(RMessage(typeName, map[]))
  {
    var b: seq<byte>, a := [0xFA, 0xFF, 0xFF, 0xFF, 0x8F, 0], Atom(-6, 12, 6);
    SixBytes(_ => [0, 0, 0, 0, 0, 0, 0, 0, 0, 0]);
    assert a.Id() == -1 && -1 !in env[typeName].ids;
    assert [a][0] == a;
    forall key | key in env[typeName].names ensures Occurrences(env, env[typeName], b, [a], key, 1) == [] {
      assert Occurrences(env, env[typeName], b, [a], key, 0) == [];
    }
    hide Taken;
    hide Tame;
    hide SafeAtom;
    hide WellFormed;
  }

  // ----- the index, atom after atom ----------------------------------------------------------

  lemma OccurrencesStep(env: Env, t: MessageType, b: seq<byte>, atoms: seq<Atom>, key: string, n: nat)
    requires |b| < 0x8000_0000 && n < |atoms|
    ensures var id := atoms[n].Id();
            Occurrences(env, t, b, atoms, key, n + 1)
            == if id in t.ids && t.ids[id].name == key then
                 Occurrences(env, t, b, atoms, key, n) + AtomValues(env, t.ids[id], atoms[n], b)
               else Occurrences(env, t, b, atoms, key, n)
  {
    hide AtomValues;
    var o := Occurrences(env, t, b, atoms, key, n);
    assert o + [] == o;
  }

  /** What is filed under every name, empty lists included. */
  ghost function Lists(env: Env, t: MessageType, b: seq<byte>, atoms: seq<Atom>, n: nat): map<string, seq<Value>>
    requires |b| < 0x8000_0000 && n <= |atoms|
  {
    map key | key in t.names :: Occurrences(env, t, b, atoms, key, n)
  }

  ghost function Compact(names: map<string, Field>, lists: map<string, seq<Value>>): map<string, Entry>
    requires names.Keys == lists.Keys
  {
    map key | key in names && lists[key] != [] :: Entry(names[key], lists[key])
  }

  lemma IndexIsCompact(env: Env, t: MessageType, b: seq<byte>, atoms: seq<Atom>, n: nat)
    requires |b| < 0x8000_0000 && n <= |atoms|
    ensures Lists(env, t, b, atoms, n).Keys == t.names.Keys
    ensures Index(env, t, b, atoms, n) == Compact(t.names, Lists(env, t, b, atoms, n))
  {
    hide Occurrences;
  }

  lemma CompactStep(names: map<string, Field>, lists: map<string, seq<Value>>, f: Field, more: seq<Value>)
    requires names.Keys == lists.Keys && f.name in names && names[f.name] == f
    ensures Compact(names, lists[f.name := lists[f.name] + more]) == Filed(Compact(names, lists), f, more)
  {
    assert [] + more == more;
    if lists[f.name] == [] { assert lists[f.name] + more == more; }
  }

  lemma ListsStep(env: Env, t: MessageType, b: seq<byte>, atoms: seq<Atom>, n: nat)
    requires |b| < 0x8000_0000 && n < |atoms| && t.Coherent()
    ensures var id, was := atoms[n].Id(), Lists(env, t, b, atoms, n);
            if id in t.ids then
              && t.ids[id].name in t.names && t.names[t.ids[id].name] == t.ids[id]
              && Lists(env, t, b, atoms, n + 1)
                 == was[t.ids[id].name := was[t.ids[id].name] + AtomValues(env, t.ids[id], atoms[n], b)]
            else Lists(env, t, b, atoms, n + 1) == was
  {
    hide *;
    if atoms[n].Id() in t.ids { CoherentAt(t, atoms[n].Id()); }
    var id, was, now := atoms[n].Id(), Lists(env, t, b, atoms, n), Lists(env, t, b, atoms, n + 1);
    ListsAre(env, t, b, atoms, n);
    ListsAre(env, t, b, atoms, n + 1);
    forall key | key in t.names
      ensures now[key] == if id in t.ids && t.ids[id].name == key
              then was[key] + AtomValues(env, t.ids[id], atoms[n], b) else was[key]
    {
      OccurrencesStep(env, t, b, atoms, key, n);
    }
  }

  lemma CoherentAt(t: MessageType, id: int)
    requires t.Coherent() && id in t.ids
    ensures t.ids[id].name in t.names && t.names[t.ids[id].name] == t.ids[id]
  {
  }

  lemma ListsAre(env: Env, t: MessageType, b: seq<byte>, atoms: seq<Atom>, n: nat)
    requires |b| < 0x8000_0000 && n <= |atoms|
    ensures Lists(env, t, b, atoms, n).Keys == t.names.Keys
    ensures forall key <- t.names :: Lists(env, t, b, atoms, n)[key] == Occurrences(env, t, b, atoms, key, n)
  {
    hide Occurrences;
  }

  lemma IndexStep(env: Env, t: MessageType, b: seq<byte>, atoms: seq<Atom>, n: nat)
    requires |b| < 0x8000_0000 && n < |atoms| && t.Coherent()
    ensures var id := atoms[n].Id();
            Index(env, t, b, atoms, n + 1)
            == if id in t.ids then Filed(Index(env, t, b, atoms, n), t.ids[id], AtomValues(env, t.ids[id], atoms[n], b))
               else Index(env, t, b, atoms, n)
  {
    hide *;
    ListsStep(env, t, b, atoms, n);
    IndexIsCompact(env, t, b, atoms, n);
    IndexIsCompact(env, t, b, atoms, n + 1);
    var id := atoms[n].Id();
    if id in t.ids {
      CompactStep(t.names, Lists(env, t, b, atoms, n), t.ids[id], AtomValues(env, t.ids[id], atoms[n], b));
    }
  }

  // ----- the reader -------------------------------------------------------------------------

  /** The index being filled, and the sub-messages read so far. */
  ghost predicate Reading(index: FieldIndex, kin: Kin)
    reads index, index.repr, kin.memory
  {
    index.Valid() && Family(kin) && index.held.kin <= kin.all && ({index} + index.repr) !! kin.memory
  }

  /** `_pbc_rmessage_new`; `beyond` is what lies in memory behind the message. The index has room for
      all atoms from the start, so that it is never rehashed. The message is one of `kin`, and so are
      its sub-messages. */
  method ReadMessage(env: Env, calcHash: string -> nat, typeName: string, b: seq<byte>, beyond: seq<byte>)
    returns (m: Message?, ghost kin: Kin)
    requires WellFormed(env) && typeName in env && |b| < 0x8000_0000 && SafeToRead(env, typeName, b, beyond)
    ensures match Read(env, typeName, b)
            case None => m == null
            case Some(v) => m != null && m in kin.all && m.value == v
    ensures Family(kin) && fresh(kin.all) && fresh(kin.memory)
    decreases |b|, 3
  {
    hide *;
    ReadCases(env, typeName, b);
    TypeFacts(env, typeName);
    NoFamily();
    kin := Nobody();
    if b == [] {
      var none := new FieldIndex(calcHash, 0, env[typeName]);
      NothingRead(none);
      m := new Message(typeName, none, RMessage(typeName, map[]));
      kin := Announced(m, none, kin);
      return;
    }
    var ctx := new Context();
    SafeIsTame(env, typeName, b, beyond);
    var junk: Junk := *;
    TameNow(b, junk);
    var answer := ctx.Open(b, junk);
    var count := answer.value;
    if count <= 0 { return null, kin; }
    ctx.HoldsIs(ctx.a, Taken(b).atoms);
    m, kin := ReadAtoms(env, calcHash, typeName, b, beyond, ctx, count);
  }

  /** The loop over the atoms. */
  method ReadAtoms(env: Env, calcHash: string -> nat, typeName: string, b: seq<byte>, beyond: seq<byte>, ctx: Context,
                   count: nat)
    returns (m: Message?, ghost kin: Kin)
    requires WellFormed(env) && typeName in env && |b| < 0x8000_0000 && SafeToRead(env, typeName, b, beyond)
    requires ctx.a != null && count <= ctx.a.Length && Taken(b) == All(ctx.a[..count])
    ensures m != null && Read(env, typeName, b) == Some(m.value)
    ensures Family(kin) && fresh(kin.all) && fresh(kin.memory) && m in kin.all
    decreases |b|, 2, 1
  {
    hide *;
    ReadCases(env, typeName, b);
    TypeFacts(env, typeName);
    NoFamily();
    kin := Nobody();
    ghost var atoms := ctx.a[..count];
    var index := new FieldIndex(calcHash, count, env[typeName]);
    NothingRead(index);
    var i := 0;
    while i < count
      invariant 0 <= i <= count && ctx.a != null && count <= ctx.a.Length && ctx.a[..count] == atoms
      invariant Reading(index, kin) && fresh(index) && fresh(index.repr) && fresh(kin.all) && fresh(kin.memory)
      invariant ctx !in index.repr && ctx.a !in index.repr
      invariant index.table.size <= i && count <= index.table.cap
      invariant index.t == env[typeName] && index.entries == Index(env, index.t, b, atoms, i)
    {
      var a := ctx.a[i];
      assert a == atoms[i];
      IndexStep(env, env[typeName], b, atoms, i);
      if a.Id() in env[typeName].ids {
        SafeFacts(env, typeName, b, beyond, a);
        FieldFacts(env, typeName, a.Id());
        kin := FileAtom(env, calcHash, index, env[typeName].ids[a.Id()], a, b, beyond, kin);
      }
      i := i + 1;
    }
    m := new Message(typeName, index, RMessage(typeName, index.entries));
    kin := Announced(m, index, kin);
  }

  lemma SafeIsTame(env: Env, typeName: string, b: seq<byte>, beyond: seq<byte>)
    requires typeName in env && |b| < 0x8000_0000 && SafeToRead(env, typeName, b, beyond)
    ensures Tame(b)
  {
    hide SafeAtom;
    hide Taken;
  }

  lemma TameNow(b: seq<byte>, junk: Junk)
    requires |b| < 0x8000_0000 && Tame(b)
    ensures TakeAll(b, 0, junk) == Taken(b) != Lost
  {
    hide TakeAll;
    hide Taken;
  }

  lemma ReadCases(env: Env, typeName: string, b: seq<byte>)
    requires typeName in env && |b| < 0x8000_0000
    ensures !Taken(b).All? ==> Read(env, typeName, b) == None
    ensures Taken(b).All? ==>
      var atoms := Taken(b).atoms;
      && Index(env, env[typeName], b, atoms, 0) == map[]
      && Read(env, typeName, b) == Some(RMessage(typeName, Index(env, env[typeName], b, atoms, |atoms|)))
    ensures b == [] ==> Taken(b) == All([])
  {
    hide TakeRecord;
    if b != [] { hide Taken; }
  }

  lemma TypeFacts(env: Env, typeName: string)
    requires WellFormed(env) && typeName in env
    ensures env[typeName].Coherent()
  {
  }

  lemma FieldFacts(env: Env, typeName: string, id: int)
    requires WellFormed(env) && typeName in env && id in env[typeName].ids
    ensures var f := env[typeName].ids[id];
            && (f.ptype == PType.Message ==> f.typeName in env)
            && f.name in env[typeName].names && env[typeName].names[f.name] == f
  {
  }

  lemma SafeFacts(env: Env, typeName: string, b: seq<byte>, beyond: seq<byte>, a: Atom)
    requires |b| < 0x8000_0000 && SafeToRead(env, typeName, b, beyond)
    requires typeName in env && Taken(b).All? && a in Taken(b).atoms && a.Id() in env[typeName].ids
    ensures SafeAtom(env, env[typeName].ids[a.Id()], a, b, beyond)
  {
    hide Taken;
    hide SafeAtom;
    hide Tame;
  }

  /** What one atom adds to the index. */
  method FileAtom(env: Env, calcHash: string -> nat, index: FieldIndex, f: Field, a: Atom, b: seq<byte>,
                  beyond: seq<byte>, ghost kin: Kin)
    returns (ghost kin': Kin)
    requires WellFormed(env) && (f.ptype == PType.Message ==> f.typeName in env)
    requires |b| < 0x8000_0000 && SafeAtom(env, f, a, b, beyond)
    requires Reading(index, kin) && f.name in index.t.names && index.t.names[f.name] == f
    requires index.table.size < index.table.cap
    modifies index, index.repr
    ensures Reading(index, kin') && fresh(kin'.all - kin.all) && fresh(kin'.memory - kin.memory)
    ensures fresh(index.repr - old(index.repr))
    ensures index.table.cap == old(index.table.cap) && index.table.size <= old(index.table.size) + 1
    ensures index.entries == Filed(old(index.entries), f, AtomValues(env, f, a, b))
    decreases |b|, 2, 0
  {
    hide *;
    FieldRules(f);
    ReadingParts(index, kin);
    if IsArray(f) {
      var items, more := ReadItems(env, calcHash, f, a, b, beyond);
      kin' := Both(kin, more);
      BothAre(kin, more);
      ReadingParts(index, kin);
      Joined(index, kin, more);
      ReadingParts(index, kin');
      index.FileMany(f, items);
      ReadingParts(index, kin');
    } else {
      var v, more := ReadValue(env, calcHash, f, a, b, beyond);
      kin' := Both(kin, more);
      BothAre(kin, more);
      ReadingParts(index, kin);
      Joined(index, kin, more);
      ReadingParts(index, kin');
      if v == None {
        NothingFiled(index, f);
        return;
      }
      index.FileOne(f, v.value);
      OneValue(v.value);
      ReadingParts(index, kin');
    }
  }

  lemma FieldRules(f: Field)
    ensures IsArray(f) <==> f.rule == Repeated || f.rule == Label.Packed
    ensures f.rule in {Optional, Required, Repeated, Label.Packed}
  {
  }

  lemma ReadingParts(index: FieldIndex, kin: Kin)
    ensures Reading(index, kin) <==>
              index.Valid() && Family(kin) && index.held.kin <= kin.all && ({index} + index.repr) !! kin.memory
  {
    hide FieldIndex.Valid;
    hide Family;
  }

  lemma NothingRead(index: FieldIndex)
    requires index.Valid() && index.held.kin == {}
    ensures Reading(index, Nobody())
  {
    hide *;
    NoFamily();
    ReadingParts(index, Nobody());
  }

  lemma BothAre(a: Kin, b: Kin)
    ensures Both(a, b) == Kin(a.all + b.all, a.memory + b.memory)
  {
  }

  lemma Joined(index: FieldIndex, kin: Kin, more: Kin)
    requires Reading(index, kin) && Family(more) && more.memory !! ({index} + index.repr)
    ensures Reading(index, Both(kin, more))
  {
    hide *;
    ReadingParts(index, kin);
    ReadingParts(index, Both(kin, more));
    BothAre(kin, more);
    FamilyJoins(kin, more);
  }

  /** A message that has been read joins its sub-messages. */
  lemma Announced(m: Message, index: FieldIndex, kin: Kin) returns (all: Kin)
    requires Reading(index, kin) && m.index == index
    requires m.value == RMessage(m.typeName, index.entries)
    ensures all == Kin(kin.all + {m}, kin.memory + ({index} + index.repr)) && Family(all)
  {
    hide *;
    ReadingParts(index, kin);
    WholeIs(m, index, kin);
    FamilyGrows(kin, m, {index} + index.repr);
    all := Kin(kin.all + {m}, kin.memory + ({index} + index.repr));
  }

  lemma WholeIs(m: Message, index: FieldIndex, kin: Kin)
    requires m.index == index && index.Valid() && index.held.kin <= kin.all
    requires m.value == RMessage(m.typeName, index.entries)
    ensures m.Whole(kin.all)
  {
    hide FieldIndex.Valid;
  }

  /** Filing nothing changes nothing. */
  lemma NothingFiled(index: FieldIndex, f: Field)
    requires index.Valid() && f.name in index.t.names && index.t.names[f.name] == f
    ensures Filed(index.entries, f, []) == index.entries
  {
    hide *;
    index.EntryFacts(f.name);
    FiledNothing(index.entries, f);
  }

  lemma FiledNothing(entries: map<string, Entry>, f: Field)
    requires f.name in entries ==> entries[f.name].field == f && entries[f.name].values != []
    ensures Filed(entries, f, []) == entries
  {
    if f.name in entries { assert entries[f.name].values + [] == entries[f.name].values; }
  }

  lemma OneValue(x: Item)
    ensures ValuesOf([x]) == [ValueOf(x)] && ValuesOf([]) == [] && SubsOf([]) == {}
    ensures SubsOf([x]) == if x.SubItem? then {x.m} else {}
  {
    hide ValueOf;
    if x.SubItem? { assert x in [x]; }
  }

  function NumberItems(s: seq<LongLong>): (r: seq<Item>)
    ensures |r| == |s| && forall k :: 0 <= k < |s| ==> r[k] == NumberItem(s[k])
  {
    seq(|s|, k requires 0 <= k < |s| => NumberItem(s[k]))
  }

  lemma NumberValues(s: seq<LongLong>)
    ensures ValuesOf(NumberItems(s)) == Numbers(s) && SubsOf(NumberItems(s)) == {}
  {
  }

  /** The items that one atom adds to an array. */
  method ReadItems(env: Env, calcHash: string -> nat, f: Field, a: Atom, b: seq<byte>, beyond: seq<byte>)
    returns (items: seq<Item>, ghost kin: Kin)
    requires WellFormed(env) && (f.ptype == PType.Message ==> f.typeName in env)
    requires |b| < 0x8000_0000 && SafeAtom(env, f, a, b, beyond) && IsArray(f)
    ensures ValuesOf(items) == AtomValues(env, f, a, b) && SubsOf(items) <= kin.all
    ensures Family(kin) && fresh(kin.all) && fresh(kin.memory)
    decreases |b|, 1
  {
    hide *;
    FieldRules(f);
    NoFamily();
    if f.rule == Label.Packed {
      var numbers := UnpackField(env, f, a, b, beyond);
      return NumberItems(numbers), Nobody();
    }
    items, kin := ReadElement(env, calcHash, f, a, b, beyond);
  }

  /** `push_value_packed` */
  method UnpackField(env: Env, f: Field, a: Atom, b: seq<byte>, beyond: seq<byte>) returns (shown: seq<LongLong>)
    requires |b| < 0x8000_0000 && SafeAtom(env, f, a, b, beyond) && f.rule == Label.Packed
    ensures ValuesOf(NumberItems(shown)) == AtomValues(env, f, a, b) && SubsOf(NumberItems(shown)) == {}
  {
    PackedIsSafe(env, f, a, b, beyond);
    hide *;
    SafeIsReadable(f.ptype, a, b, beyond);
    var n, numbers := UnpackPacked(b + beyond, a.Start(), a.Size(), f.ptype, []);
    PackedValuesAre(env, f, a, b, beyond, numbers);
    shown := Shown(f.ptype, numbers);
    NumberValues(shown);
  }

  lemma PackedIsSafe(env: Env, f: Field, a: Atom, b: seq<byte>, beyond: seq<byte>)
    requires |b| < 0x8000_0000 && SafeAtom(env, f, a, b, beyond) && f.rule == Label.Packed
    ensures PackedSafe(f.ptype, a, b, beyond)
  {
    hide PackedSafe;
    hide SafeToRead;
  }

  lemma PackedValuesAre(env: Env, f: Field, a: Atom, b: seq<byte>, beyond: seq<byte>, numbers: seq<LongLong>)
    requires |b| < 0x8000_0000 && SafeAtom(env, f, a, b, beyond) && f.rule == Label.Packed
    requires numbers == [] + Unpacked(f.ptype, SliceOf(b + beyond, a.Start(), a.Size()))
    ensures AtomValues(env, f, a, b) == Numbers(Shown(f.ptype, numbers))
  {
    PackedIsSafe(env, f, a, b, beyond);
    SafeIsReadable(f.ptype, a, b, beyond);
    hide Unpacked;
    hide SliceOf;
    hide PackedSafe;
    hide SafeAtom;
    assert [] + Unpacked(f.ptype, SliceOf(b, a.Start(), a.Size()))
           == Unpacked(f.ptype, SliceOf(b, a.Start(), a.Size()));
  }

  /** `push_value_array`: what is pushed, if anything. */
  method ReadElement(env: Env, calcHash: string -> nat, f: Field, a: Atom, b: seq<byte>, beyond: seq<byte>)
    returns (items: seq<Item>, ghost kin: Kin)
    requires WellFormed(env) && (f.ptype == PType.Message ==> f.typeName in env)
    requires |b| < 0x8000_0000 && SafeAtom(env, f, a, b, beyond) && f.rule == Repeated
    ensures ValuesOf(items) == AtomValues(env, f, a, b) && SubsOf(items) <= kin.all
    ensures Family(kin) && fresh(kin.all) && fresh(kin.memory)
    decreases |b|, 0
  {
    AtomCases(env, f, a, b, beyond);
    hide *;
    NoFamily();
    kin := Nobody();
    OneValue(BrokenItem);
    if f.ptype == PType.Message {
      if a.WireType() != WT_LEND { return [], kin; }
      var m;
      m, kin := ReadMessage(env, calcHash, f.typeName, b[a.low..a.hi], b[a.hi..] + beyond);
      if m == null { return [], kin; }
      OneValue(SubItem(m));
      SubValue(m);
      return [SubItem(m)], kin;
    }
    if f.ptype == String || f.ptype == PType.Bytes {
      if a.WireType() != WT_LEND { return [], kin; }
      items := [TextItem(b[a.low..a.hi])];
    } else if f.ptype == Group {
      return [], kin;
    } else {
      items := [NumberItem(Plain(f.ptype, a.Number()))];
    }
    OneValue(items[0]);
    PlainValue(items[0]);
  }

  lemma SubValue(m: Message)
    ensures ValueOf(SubItem(m)) == Sub(m.value)
  {
  }

  lemma PlainValue(x: Item)
    ensures x.NumberItem? ==> ValueOf(x) == Number(x.v)
    ensures x.TextItem? ==> ValueOf(x) == Text(x.b)
    ensures x.BrokenItem? ==> ValueOf(x) == Broken
  {
  }

  /** What an atom of a field that is not packed adds. */
  lemma AtomCases(env: Env, f: Field, a: Atom, b: seq<byte>, beyond: seq<byte>)
    requires |b| < 0x8000_0000 && SafeAtom(env, f, a, b, beyond) && f.rule != Label.Packed
    ensures f.ptype in {PType.Message, String, PType.Bytes} && a.WireType() == WT_LEND ==>
              a.low <= a.hi <= |b| && |b[a.low..a.hi]| < |b|
    ensures f.ptype == PType.Message && a.WireType() == WT_LEND ==>
              && SafeToRead(env, f.typeName, b[a.low..a.hi], b[a.hi..] + beyond)
              && AtomValues(env, f, a, b)
                 == match Read(env, f.typeName, b[a.low..a.hi])
                    case None => if f.rule == Repeated then [] else [Broken]
                    case Some(m) => [Sub(m)]
    ensures f.ptype in {PType.Message, String, PType.Bytes} && a.WireType() != WT_LEND ==>
              AtomValues(env, f, a, b) == []
    ensures f.ptype in {String, PType.Bytes} && a.WireType() == WT_LEND ==>
              AtomValues(env, f, a, b) == [Text(b[a.low..a.hi])]
    ensures f.ptype == Group ==> AtomValues(env, f, a, b) == []
    ensures f.ptype !in {PType.Message, String, PType.Bytes, Group} ==>
              AtomValues(env, f, a, b) == [Number(Plain(f.ptype, a.Number()))]
  {
    hide Read;
    hide SafeToRead;
    hide Unpacked;
    hide Plain;
  }

  /** `read_value` */
  method ReadValue(env: Env, calcHash: string -> nat, f: Field, a: Atom, b: seq<byte>, beyond: seq<byte>)
    returns (v: Option<Item>, ghost kin: Kin)
    requires WellFormed(env) && (f.ptype == PType.Message ==> f.typeName in env)
    requires |b| < 0x8000_0000 && SafeAtom(env, f, a, b, beyond) && !IsArray(f)
    ensures AtomValues(env, f, a, b) == if v == None then [] else [ValueOf(v.value)]
    ensures v.Some? ==> SubsOf([v.value]) <= kin.all
    ensures Family(kin) && fresh(kin.all) && fresh(kin.memory)
    decreases |b|, 0
  {
    FieldRules(f);
    hide IsArray;
    AtomCases(env, f, a, b, beyond);
    hide *;
    NoFamily();
    kin := Nobody();
    var item;
    if f.ptype == PType.Message {
      if a.WireType() != WT_LEND { return None, kin; }
      var m;
      m, kin := ReadMessage(env, calcHash, f.typeName, b[a.low..a.hi], b[a.hi..] + beyond);
      item := if m == null then BrokenItem else SubItem(m);
      if m != null { SubValue(m); }
    } else if f.ptype == String || f.ptype == PType.Bytes {
      if a.WireType() != WT_LEND { return None, kin; }
      item := TextItem(b[a.low..a.hi]);
    } else if f.ptype == Group {
      return None, kin;
    } else {
      item := NumberItem(Plain(f.ptype, a.Number()));
    }
    OneValue(item);
    PlainValue(item);
    v := Some(item);
  }

  // ----- asking a message that has been read ---------------------------------------------------

  /** `pbc_rmessage_new` */
  method New(env: Env, calcHash: string -> nat, msgs: StringMap<string>, typeName: string, slice: seq<byte>,
             beyond: seq<byte>)
    returns (m: Message?, ghost kin: Kin)
    requires TypesOf(msgs, env) && msgs.CanAsk(typeName)
    requires WellFormed(env) && |slice| < 0x8000_0000 && SafeToRead(env, typeName, slice, beyond)
    ensures match Read(env, typeName, slice)
            case None => m == null
            case Some(v) => m != null && m in kin.all && m.value == v
    ensures Family(kin) && fresh(kin.all) && fresh(kin.memory)
  {
    hide *;
    var found := GetMessage(msgs, env, typeName);
    if !found {
      NoFamily();
      NoSuchType(env, typeName, slice);
      return null, Nobody();
    }
    m, kin := ReadMessage(env, calcHash, typeName, slice, beyond);
  }

  lemma NoSuchType(env: Env, typeName: string, b: seq<byte>)
    requires |b| < 0x8000_0000 && typeName !in env
    ensures Read(env, typeName, b) == None
  {
  }

  /** `_pbcP_message_default` as `pbc_rmessage_integer` sees it. */
  function DefaultNumber(t: MessageType, key: string): LongLong {
    if key !in t.names then LongLong(0, 0)
    else var f := t.names[key]; if f.ptype == Enum then LongLong(f.default.low, 0) else f.default
  }

  /** `_pbcP_message_default` as `pbc_rmessage_string` sees it. */
  function DefaultText(t: MessageType, key: string): seq<byte> {
    if key in t.names then t.names[key].defaultText else []
  }

  /** The key may be looked for, and the place is one of the array if there is one. */
  ghost predicate CanAsk(m: Message, kin: Kin, key: string, at: int)
    reads kin.memory
  {
    && Family(kin) && m in kin.all && CanLook(m, kin, key)
    && (key in m.value.index && IsArray(m.value.index[key].field) ==> 0 <= at < |m.value.index[key].values|)
  }

  ghost predicate CanLook(m: Message, kin: Kin, key: string)
    requires Family(kin) && m in kin.all
    reads kin.memory
  {
    m.index != null ==> m.index.table in kin.memory && m.index.table.slot in kin.memory && m.index.table.CanAsk(key)
  }

  /** If the index does not have the key, the table of names is asked for it: `names` is `m->msg->name`. */
  ghost predicate CanName(env: Env, m: Message, key: string, names: StringMap<Field>)
    reads names, names.slot
  {
    && m.typeName in env && FieldsOf(names, env[m.typeName])
    && (key !in m.value.index ==> names.CanAsk(key))
  }

  /** The key of a field that stands alone is found in its home slot. */
  ghost predicate AtHome(m: Message, kin: Kin, key: string)
    requires Family(kin) && m in kin.all && CanLook(m, kin, key)
    reads kin.memory
  {
    m.index != null && m.index.table.AtHome(key)
  }

  /** What is found under a key. */
  method Look(m: Message, ghost kin: Kin, key: string, at: int) returns (x: Option<Item>)
    requires CanAsk(m, kin, key, at)
    ensures key !in m.value.index ==> x == None
    ensures key in m.value.index ==>
              && m.value.index[key].values != []
              && x.Some? && ValueOf(x.value) == Pick(m.value.index[key], at, AtHome(m, kin, key))
              && SubsOf([x.value]) <= kin.all
  {
    hide FieldIndex.Valid;
    hide ValueOf;
    hide SubsOf;
    hide Pick;
    if m.index == null { return None; }
    x := m.index.Get(key, at);
  }

  lemma PickIsOne(e: Entry, at: int, atHome: bool)
    requires e.values != [] && (IsArray(e.field) ==> 0 <= at < |e.values|)
    ensures Pick(e, at, atHome) in e.values
  {
  }

  /** `pbc_rmessage_integer`, for fields that hold numbers. */
  method Integer(env: Env, m: Message, ghost kin: Kin, key: string, at: int, names: StringMap<Field>)
    returns (v: LongLong)
    requires CanAsk(m, kin, key, at) && CanName(env, m, key, names)
    requires key in m.value.index ==> forall x <- m.value.index[key].values :: x.Number?
    ensures if key in m.value.index then
              m.value.index[key].values != [] && Number(v) == Pick(m.value.index[key], at, AtHome(m, kin, key))
            else v == DefaultNumber(env[m.typeName], key)
  {
    hide Family;
    hide AtHome;
    hide CanLook;
    hide FieldsOf;
    var x := Look(m, kin, key, at);
    if x == None {
      var f := FindField(names, env[m.typeName], key);
      if f == None { return LongLong(0, 0); }
      return if f.value.ptype == Enum then LongLong(f.value.default.low, 0) else f.value.default;
    }
    PickIsOne(m.value.index[key], at, AtHome(m, kin, key));
    v := x.value.v;
  }

  /** `pbc_rmessage_real`, for fields that hold numbers and are no enums: the words of the double. */
  method Real(env: Env, m: Message, ghost kin: Kin, key: string, at: int, names: StringMap<Field>)
    returns (v: LongLong)
    requires CanAsk(m, kin, key, at) && CanName(env, m, key, names)
    requires key in m.value.index ==> forall x <- m.value.index[key].values :: x.Number?
    requires key in env[m.typeName].names ==> env[m.typeName].names[key].ptype != Enum
    ensures if key in m.value.index then
              m.value.index[key].values != [] && Number(v) == Pick(m.value.index[key], at, AtHome(m, kin, key))
            else v == DefaultNumber(env[m.typeName], key)
  {
    hide Family;
    hide AtHome;
    hide CanLook;
    hide FieldsOf;
    var x := Look(m, kin, key, at);
    if x == None {
      var f := FindField(names, env[m.typeName], key);
      return if f == None then LongLong(0, 0) else f.value.default;
    }
    PickIsOne(m.value.index[key], at, AtHome(m, kin, key));
    v := x.value.v;
  }

  /** `pbc_rmessage_string`, for fields that hold strings or bytes: the bytes given, whose number
      is the size reported. */
  method GetText(env: Env, m: Message, ghost kin: Kin, key: string, at: int, names: StringMap<Field>)
    returns (b: seq<byte>)
    requires CanAsk(m, kin, key, at) && CanName(env, m, key, names)
    requires key in m.value.index ==> forall x <- m.value.index[key].values :: x.Text?
    ensures if key in m.value.index then
              m.value.index[key].values != [] && Text(b) == Pick(m.value.index[key], at, AtHome(m, kin, key))
            else b == DefaultText(env[m.typeName], key)
  {
    hide Family;
    hide AtHome;
    hide CanLook;
    hide FieldsOf;
    var x := Look(m, kin, key, at);
    if x == None {
      var f := FindField(names, env[m.typeName], key);
      return if f == None then [] else f.value.defaultText;
    }
    PickIsOne(m.value.index[key], at, AtHome(m, kin, key));
    b := x.value.b;
  }

  /** What `pbc_rmessage_string` gives for a field of an enum type: the name that the enum's table has for the low
      word of the number, as a signed one, and `None`, which is NULL, if it has none; or the default's name. */
  ghost predicate NameGiven(t: MessageType, m: RMessage, key: string, at: int, atHome: bool, n: Option<string>)
    requires key in t.names
  {
    if key in m.index then
      && m.index[key].values != [] && (IsArray(m.index[key].field) ==> 0 <= at < |m.index[key].values|)
      && var x, names := Pick(m.index[key], at, atHome), t.names[key].values.names;
         x.Number?
         && var i := if x.v.low < 0x8000_0000 then x.v.low else x.v.low - 0x1_0000_0000;
            n == if i in names then Some(names[i]) else None
    else n == Some(Chars(CString(t.names[key].defaultText)))
  }

  /** The name that is given is one of the number that was picked, and none is given exactly when the enum has no
      name for it. */
  ghost predicate NameTrue(m: RMessage, key: string, at: int, atHome: bool, e: EnumType, n: Option<string>)
    requires key in m.index
  {
    && m.index[key].values != [] && (IsArray(m.index[key].field) ==> 0 <= at < |m.index[key].values|)
    && var x := Pick(m.index[key], at, atHome);
       x.Number?
       && var i := if x.v.low < 0x8000_0000 then x.v.low else x.v.low - 0x1_0000_0000;
          && (n.None? <==> forall s :: !Has(e.values, i, s))
          && (n.Some? ==> Has(e.values, i, n.value))
  }

  lemma NameIsTrue(t: MessageType, m: RMessage, key: string, at: int, atHome: bool, e: EnumType, n: Option<string>)
    requires key in t.names && key in m.index && NameGiven(t, m, key, at, atHome, n)
    requires e.Valid() && e.Answers(t.names[key].values)
    ensures NameTrue(m, key, at, atHome, e, n)
  {
    hide *;
    NameGivenIs(t, m, key, at, atHome, n);
    var x, names := Pick(m.index[key], at, atHome), t.names[key].values.names;
    var i := if x.v.low < 0x8000_0000 then x.v.low else x.v.low - 0x1_0000_0000;
    e.AnswersTrue(t.names[key].values);
    NameTrueIs(m, key, at, atHome, e, n, i);
  }

  lemma NameGivenIs(t: MessageType, m: RMessage, key: string, at: int, atHome: bool, n: Option<string>)
    requires key in t.names && key in m.index && NameGiven(t, m, key, at, atHome, n)
    ensures m.index[key].values != [] && (IsArray(m.index[key].field) ==> 0 <= at < |m.index[key].values|)
    ensures var x, names := Pick(m.index[key], at, atHome), t.names[key].values.names;
            x.Number?
            && var i := if x.v.low < 0x8000_0000 then x.v.low else x.v.low - 0x1_0000_0000;
               n == if i in names then Some(names[i]) else None
  {
    hide Pick;
    hide IsArray;
  }

  lemma NameTrueIs(m: RMessage, key: string, at: int, atHome: bool, e: EnumType, n: Option<string>, i: i32)
    requires key in m.index && m.index[key].values != []
    requires IsArray(m.index[key].field) ==> 0 <= at < |m.index[key].values|
    requires var x := Pick(m.index[key], at, atHome);
      x.Number? && i == if x.v.low < 0x8000_0000 then x.v.low else x.v.low - 0x1_0000_0000
    requires (n.None? <==> forall s :: !Has(e.values, i, s)) && (n.Some? ==> Has(e.values, i, n.value))
    ensures NameTrue(m, key, at, atHome, e, n)
  {
    hide Pick;
    hide IsArray;
    hide Has;
  }

  /** `pbc_rmessage_string`, for fields of an enum type that are not packed; `e` is the enum that the field
      points to, and `None` is NULL. */
  method GetName(env: Env, m: Message, ghost kin: Kin, key: string, at: int, names: StringMap<Field>, e: EnumType)
    returns (n: Option<string>)
    requires CanAsk(m, kin, key, at) && CanName(env, m, key, names) && key in env[m.typeName].names
    requires var f := env[m.typeName].names[key];
             f.ptype == Enum && f.rule != Packed && e.Valid() && e.Answers(f.values)
    requires key in m.value.index ==> forall x <- m.value.index[key].values :: x.Number?
    ensures NameGiven(env[m.typeName], m.value, key, at, AtHome(m, kin, key), n)
    ensures key in m.value.index ==> NameTrue(m.value, key, at, AtHome(m, kin, key), e, n)
  {
    hide *;
    ghost var atHome := AskedFacts(m, kin, key, at);
    NameFacts(env, m, key, names);
    var x := Look(m, kin, key, at);
    if x == None {
      var f := FindField(names, env[m.typeName], key);
      NoNumber(env[m.typeName], m.value, key, at, atHome);
      return Some(Chars(CString(f.value.defaultText)));
    }
    PickIsOne(m.value.index[key], at, atHome);
    PlainValue(x.value);
    ValueKind(x.value);
    n := NameFor(e, env[m.typeName].names[key], x.value.v);
    NumberNamed(env[m.typeName], m.value, key, at, atHome, x.value.v, n);
    NameIsTrue(env[m.typeName], m.value, key, at, atHome, e, n);
  }

  lemma AskedFacts(m: Message, kin: Kin, key: string, at: int) returns (atHome: bool)
    requires CanAsk(m, kin, key, at)
    ensures Family(kin) && m in kin.all && CanLook(m, kin, key) && atHome == AtHome(m, kin, key)
    ensures key in m.value.index && IsArray(m.value.index[key].field) ==> 0 <= at < |m.value.index[key].values|
  {
    hide AtHome;
    atHome := AtHome(m, kin, key);
  }

  lemma NameFacts(env: Env, m: Message, key: string, names: StringMap<Field>)
    requires CanName(env, m, key, names)
    ensures m.typeName in env && FieldsOf(names, env[m.typeName]) && (key !in m.value.index ==> names.CanAsk(key))
  {
    hide FieldsOf;
  }

  lemma ValueKind(x: Item)
    ensures ValueOf(x).Number? <==> x.NumberItem?
  {
  }

  /** The name that `read_value` puts beside the number: the table is asked for the low word. */
  method NameFor(e: EnumType, f: Field, v: LongLong) returns (n: Option<string>)
    requires e.Valid() && e.Answers(f.values)
    ensures var i := if v.low < 0x8000_0000 then v.low else v.low - 0x1_0000_0000;
            n == if i in f.values.names then Some(f.values.names[i]) else None
  {
    hide EnumType.Valid;
    e.AnswersIs(f.values);
    n := e.NameOf(Signed32(v.low));
  }

  lemma NoNumber(t: MessageType, m: RMessage, key: string, at: int, atHome: bool)
    requires key in t.names && key !in m.index
    ensures NameGiven(t, m, key, at, atHome, Some(Chars(CString(t.names[key].defaultText))))
  {
  }

  lemma NumberNamed(t: MessageType, m: RMessage, key: string, at: int, atHome: bool, v: LongLong, n: Option<string>)
    requires key in t.names && key in m.index && m.index[key].values != []
    requires IsArray(m.index[key].field) ==> 0 <= at < |m.index[key].values|
    requires Pick(m.index[key], at, atHome) == Number(v)
    requires var i, names := if v.low < 0x8000_0000 then v.low else v.low - 0x1_0000_0000, t.names[key].values.names;
      n == if i in names then Some(names[i]) else None
    ensures NameGiven(t, m, key, at, atHome, n)
  {
    hide Pick;
    hide IsArray;
  }

  /** `pbc_rmessage_message`, for fields of a message type. A sub-message that is absent is given as one
      read from no bytes would be; what is given may be asked in its turn. */
  method SubMessage(env: Env, m: Message, ghost kin: Kin, key: string, at: int, names: StringMap<Field>)
    returns (x: Option<Item>, ghost kin': Kin)
    requires CanAsk(m, kin, key, at) && CanName(env, m, key, names)
    requires key in env[m.typeName].names ==> env[m.typeName].names[key].ptype == PType.Message
    requires key in env[m.typeName].names ==> env[m.typeName].names[key].typeName in env
    ensures key in m.value.index ==>
              && m.value.index[key].values != []
              && x.Some? && ValueOf(x.value) == Pick(m.value.index[key], at, AtHome(m, kin, key))
    ensures key !in m.value.index && key in env[m.typeName].names ==>
              x.Some? && x.value.SubItem? && Some(x.value.m.value) == Read(env, env[m.typeName].names[key].typeName, [])
    ensures key !in m.value.index && key !in env[m.typeName].names ==> x == None
    ensures Family(kin') && kin.all <= kin'.all && (x.Some? && x.value.SubItem? ==> x.value.m in kin'.all)
  {
    hide Family;
    hide AtHome;
    hide CanLook;
    hide FieldsOf;
    hide Read;
    x := Look(m, kin, key, at);
    kin' := kin;
    if x.Some? {
      OneValue(x.value);
      return;
    }
    var f := FindField(names, env[m.typeName], key);
    if f == None { return; }
    var absent := new Message(f.value.typeName, null, RMessage(f.value.typeName, map[]));
    ReadCases(env, f.value.typeName, []);
    StandsIn(absent, kin);
    x, kin' := Some(SubItem(absent)), Kin(kin.all + {absent}, kin.memory + {});
  }

  lemma StandsIn(m: Message, kin: Kin)
    requires Family(kin) && m.index == null && m.value == RMessage(m.typeName, map[])
    ensures Family(Kin(kin.all + {m}, kin.memory + {}))
  {
    FamilyGrows(kin, m, {});
  }

  /** How many values a message has under a key. */
  function SizeOf(m: RMessage, key: string): nat {
    if key !in m.index then 0 else if IsArray(m.index[key].field) then |m.index[key].values| else 1
  }

  /** `pbc_rmessage_size` */
  method Size(m: Message, ghost kin: Kin, key: string) returns (n: nat)
    requires Family(kin) && m in kin.all && CanLook(m, kin, key)
    ensures n == SizeOf(m.value, key)
  {
    hide FieldIndex.Valid;
    if m.index == null { return 0; }
    n := m.index.Count(key);
  }

  /** The size of a message that was read: as many as its atoms gave an array, and one for any number of
      occurrences of a field that stands alone. */
  lemma SizeCounts(env: Env, typeName: string, b: seq<byte>, key: string)
    requires WellFormed(env) && typeName in env && |b| < 0x8000_0000 && Read(env, typeName, b).Some?
    requires key in env[typeName].names
    ensures Taken(b).All?
    ensures var atoms := Taken(b).atoms;
            var given := Occurrences(env, env[typeName], b, atoms, key, |atoms|);
            SizeOf(Read(env, typeName, b).value, key)
            == if IsArray(env[typeName].names[key]) then |given| else if given == [] then 0 else 1
  {
    ReadCases(env, typeName, b);
    hide WellFormed;
    hide Taken;
    hide Occurrences;
  }

  /** A message that was read can be asked for any number it holds. */
  lemma {:induction false} NumericEntries(env: Env, typeName: string, b: seq<byte>, key: string)
    requires WellFormed(env) && typeName in env && |b| < 0x8000_0000 && Read(env, typeName, b).Some?
    ensures var m := Read(env, typeName, b).value;
            key in m.index ==>
              && m.index[key].values != [] && key in env[typeName].names
              && m.index[key].field == env[typeName].names[key]
              && (IsNumeric(m.index[key].field.ptype) ==> forall x <- m.index[key].values :: x.Number?)
  {
    ReadCases(env, typeName, b);
    TypeFacts(env, typeName);
    var atoms := Taken(b).atoms;
    if key in env[typeName].names && IsNumeric(env[typeName].names[key].ptype) {
      hide *;
      NumbersOnly(env, env[typeName], b, atoms, key, |atoms|);
    }
    hide WellFormed;
    hide Taken;
    hide Occurrences;
  }

  lemma {:induction false} NumbersOnly(env: Env, t: MessageType, b: seq<byte>, atoms: seq<Atom>, key: string, n: nat)
    requires |b| < 0x8000_0000 && n <= |atoms| && t.Coherent()
    requires key in t.names && IsNumeric(t.names[key].ptype)
    ensures forall x <- Occurrences(env, t, b, atoms, key, n) :: x.Number?
  {
    hide AtomValues;
    hide Index;
    if n > 0 {
      NumbersOnly(env, t, b, atoms, key, n - 1);
      OccurrencesStep(env, t, b, atoms, key, n - 1);
      var a := atoms[n - 1];
      if a.Id() in t.ids && t.ids[a.Id()].name == key { AtomNumbers(env, t.ids[a.Id()], a, b); }
      hide *;
    }
  }

  lemma AtomNumbers(env: Env, f: Field, a: Atom, b: seq<byte>)
    requires |b| < 0x8000_0000 && IsNumeric(f.ptype)
    ensures forall x <- AtomValues(env, f, a, b) :: x.Number?
  {
    hide Unpacked;
    hide Read;
  }
}
