/** Reading a message gives back what was written to it: rmessage.c, context.c and pattern.c
    (lualib-src/pbc/src) undo wmessage.c. */
module RoundTrip {
  import opened Words
  import opened Varints
  import opened Wire
  import opened Schemas
  import opened PackedArrays
  import opened NumberTrips
  import opened Reals
  import opened Writers
  import opened WMessages
  import opened Indexes
  import opened RMessages
  import opened TypeTables
  import opened Enums
  import FixedTables
  import StringMaps

  // ----- reading records ------------------------------------------------------------------

  /** What one record adds to field `f`. */
  function RecordValues(env: Env, f: Field, r: Record): seq<Value>
    requires r.Valid()
  {
    if f.rule == Packed then
      Numbers(Shown(f.ptype, Unpacked(f.ptype, if r.payload.Bytes? then r.payload.b else [])))
    else if IsNumeric(f.ptype) then [Number(Plain(f.ptype, PayloadNumber(r.payload)))]
    else if !r.payload.Bytes? then []
    else if f.ptype == PType.Message then
      match Read(env, f.typeName, r.payload.b)
      case None => if f.rule == Repeated then [] else [Broken]
      case Some(m) => [Value.Sub(m)]
    else if f.ptype == Group then []
    else [Text(r.payload.b)]
  }

  /** The records with a given id. */
  function Own(rs: seq<Record>, id: int): seq<Record> {
    if rs == [] then []
    else Own(rs[..|rs| - 1], id) + if rs[|rs| - 1].id == id then [rs[|rs| - 1]] else []
  }

  function Values(env: Env, f: Field, rs: seq<Record>): seq<Value>
    requires AllValid(rs)
  {
    if rs == [] then [] else Values(env, f, rs[..|rs| - 1]) + RecordValues(env, f, rs[|rs| - 1])
  }

  lemma {:induction false} OwnConcat(a: seq<Record>, b: seq<Record>, id: int)
    ensures Own(a + b, id) == Own(a, id) + Own(b, id)
  {
    if b == [] {
      assert a + b == a;
    } else {
      var n := |b| - 1;
      assert (a + b)[..|a| + n] == a + b[..n];
      OwnConcat(a, b[..n], id);
    }
  }

  lemma {:induction false} NoneOwn(rs: seq<Record>, id: int)
    requires forall r :: r in rs ==> r.id != id
    ensures Own(rs, id) == []
  {
    if rs != [] { NoneOwn(rs[..|rs| - 1], id); }
  }

  lemma {:induction false} OwnAmong(rs: seq<Record>, id: int)
    ensures forall r :: r in Own(rs, id) <==> r in rs && r.id == id
  {
    if rs != [] {
      var n := |rs| - 1;
      OwnAmong(rs[..n], id);
      assert rs == rs[..n] + [rs[n]];
    }
  }

  lemma {:induction false} ValuesConcat(env: Env, f: Field, a: seq<Record>, b: seq<Record>)
    requires AllValid(a) && AllValid(b)
    ensures AllValid(a + b)
    ensures Values(env, f, a + b) == Values(env, f, a) + Values(env, f, b)
  {
    hide RecordValues;
    hide Record.Valid;
    if b == [] {
      assert a + b == a;
    } else {
      var n := |b| - 1;
      assert (a + b)[..|a| + n] == a + b[..n];
      ValuesConcat(env, f, a, b[..n]);
    }
  }

  /** A packed field holds bytes, and a numeric field that is not packed holds none. */
  predicate Suits(t: MessageType, r: Record) { r.id in t.ids ==> SuitsField(t.ids[r.id], r) }

  predicate SuitsField(f: Field, r: Record) {
    if f.rule == Packed then r.payload.Bytes? else IsNumeric(f.ptype) ==> !r.payload.Bytes?
  }

  lemma SliceIsBytes(a: Atom, r: Record, message: seq<byte>)
    requires |message| < 0x8000_0000 && Matches(a, r, message) && r.payload.Bytes?
    ensures SliceOf(message, a.Start(), a.Size()) == r.payload.b
  {
    assert a.Start() == a.low && a.Size() == a.hi - a.low;
  }

  lemma AtomIsRecord(env: Env, f: Field, a: Atom, r: Record, message: seq<byte>)
    requires |message| < 0x8000_0000 && Inside(a, message) && r.Valid() && Matches(a, r, message)
    requires SuitsField(f, r)
    ensures AtomValues(env, f, a, message) == RecordValues(env, f, r)
  {
    if r.payload.Bytes? { SliceIsBytes(a, r, message); }
    hide SliceOf;
    hide Read;
    hide Unpacked;
    hide Plain;
    hide Halves;
  }

  ghost predicate FitToRead(t: MessageType, rs: seq<Record>) {
    AllValid(rs) && |Encode(rs)| < 0x8000_0000 && forall r :: r in rs ==> Suits(t, r)
  }

  function KeyValues(env: Env, f: Field, rs: seq<Record>): seq<Value>
    requires AllValid(rs)
  {
    OwnAmong(rs, f.id);
    Values(env, f, Own(rs, f.id))
  }

  lemma KeyValuesStep(env: Env, f: Field, rs: seq<Record>, n: nat)
    requires AllValid(rs) && n < |rs|
    ensures AllValid(rs[..n]) && AllValid(rs[..n + 1])
    ensures KeyValues(env, f, rs[..n + 1])
         == if rs[n].id == f.id then KeyValues(env, f, rs[..n]) + RecordValues(env, f, rs[n])
            else KeyValues(env, f, rs[..n])
  {
    hide RecordValues;
    hide Record.Valid;
    OwnAmong(rs[..n], f.id);
    OwnAmong(rs[..n + 1], f.id);
    assert rs[..n + 1][..n] == rs[..n] && rs[..n + 1][n] == rs[n];
    var o := Own(rs[..n], f.id);
    if rs[n].id == f.id {
      assert Own(rs[..n + 1], f.id)[..|o|] == o;
    } else {
      assert o + [] == o;
    }
  }

  lemma AtomStep(env: Env, t: MessageType, rs: seq<Record>, f: Field, n: nat)
    requires FitToRead(t, rs) && n < |rs| && AllInside(AtomsOf(rs, 0), Encode(rs))
    ensures AllValid(rs)
    ensures AtomsOf(rs, 0)[n].Id() == rs[n].id
    ensures f.id in t.ids && t.ids[f.id] == f && rs[n].id == f.id ==>
              AtomValues(env, f, AtomsOf(rs, 0)[n], Encode(rs)) == RecordValues(env, f, rs[n])
  {
    var a, r, b := AtomsOf(rs, 0)[n], rs[n], Encode(rs);
    AtomsMatchRecords(rs, [], n);
    assert [] + b == b;
    assert Suits(t, r) && r.Valid() && Inside(a, b);
    hide AtomValues;
    hide RecordValues;
    hide AtomsOf;
    hide Encode;
    if f.id in t.ids && t.ids[f.id] == f && r.id == f.id { AtomIsRecord(env, f, a, r, b); }
  }

  /** What is filed under a key is what its records hold, in order. */
  lemma {:induction false} OccurrencesAreValues(env: Env, t: MessageType, rs: seq<Record>, key: string, n: nat)
    requires t.Coherent() && FitToRead(t, rs) && key in t.names && n <= |rs|
    requires AllInside(AtomsOf(rs, 0), Encode(rs))
    ensures AllValid(rs[..n])
    ensures Occurrences(env, t, Encode(rs), AtomsOf(rs, 0), key, n) == KeyValues(env, t.names[key], rs[..n])
  {
    hide *;
    FitFacts(t, rs);
    if n > 0 {
      OccurrencesAreValues(env, t, rs, key, n - 1);
      OneMoreFiled(env, t, rs, key, n - 1);
    } else {
      NothingYet(env, t, rs, key);
    }
  }

  lemma OneMoreFiled(env: Env, t: MessageType, rs: seq<Record>, key: string, n: nat)
    requires t.Coherent() && FitToRead(t, rs) && key in t.names && n < |rs|
    requires AllInside(AtomsOf(rs, 0), Encode(rs)) && AllValid(rs[..n])
    requires Occurrences(env, t, Encode(rs), AtomsOf(rs, 0), key, n) == KeyValues(env, t.names[key], rs[..n])
    ensures AllValid(rs[..n + 1])
    ensures Occurrences(env, t, Encode(rs), AtomsOf(rs, 0), key, n + 1)
         == KeyValues(env, t.names[key], rs[..n + 1])
  {
    hide *;
    FitFacts(t, rs);
    NamedOnce(t, key, AtomsOf(rs, 0)[n].Id());
    AtomStep(env, t, rs, t.names[key], n);
    OccurrencesStep(env, t, Encode(rs), AtomsOf(rs, 0), key, n);
    KeyValuesStep(env, t.names[key], rs, n);
  }

  lemma FitFacts(t: MessageType, rs: seq<Record>)
    requires FitToRead(t, rs)
    ensures AllValid(rs) && |Encode(rs)| < 0x8000_0000
  {
  }

  lemma NamedOnce(t: MessageType, key: string, id: int)
    requires t.Coherent() && key in t.names
    ensures var f := t.names[key];
            && f.id in t.ids && t.ids[f.id] == f && f.name == key
            && (id in t.ids && t.ids[id].name == key <==> id == f.id)
  {
  }

  lemma NothingYet(env: Env, t: MessageType, rs: seq<Record>, key: string)
    requires FitToRead(t, rs) && key in t.names
    ensures AllValid(rs) && AllValid(rs[..0]) && KeyValues(env, t.names[key], rs[..0]) == []
    ensures Occurrences(env, t, Encode(rs), AtomsOf(rs, 0), key, 0) == []
  {
    assert rs[..0] == [];
  }

  /** The message that a list of records stands for. */
  function RecordIndex(env: Env, t: MessageType, rs: seq<Record>): map<string, Entry>
    requires AllValid(rs)
  {
    map key | key in t.names && KeyValues(env, t.names[key], rs) != [] ::
      Entry(t.names[key], KeyValues(env, t.names[key], rs))
  }

  /** Reading the encoding of any list of records that fits the type succeeds, and every key
      gets what its own records hold, in order. */
  lemma ReadsRecords(env: Env, typeName: string, rs: seq<Record>)
    requires typeName in env && env[typeName].Coherent() && FitToRead(env[typeName], rs)
    ensures Read(env, typeName, Encode(rs)) == Some(RMessage(typeName, RecordIndex(env, env[typeName], rs)))
  {
    hide *;
    FitFacts(env[typeName], rs);
    var t, b := env[typeName], Encode(rs);
    ParseEncodedAll(rs, 0);
    var atoms := AtomsOf(rs, 0);
    ParsedInside(b, atoms);
    ParsedIsTame(b);
    ReadCases(env, typeName, b);
    assert rs[..|rs|] == rs;
    forall key | key in t.names
      ensures Occurrences(env, t, b, atoms, key, |rs|) == KeyValues(env, t.names[key], rs)
    {
      OccurrencesAreValues(env, t, rs, key, |rs|);
    }
    SameIndex(env, t, b, atoms, rs);
  }

  lemma SameIndex(env: Env, t: MessageType, b: seq<byte>, atoms: seq<Atom>, rs: seq<Record>)
    requires |b| < 0x8000_0000 && |atoms| == |rs| && AllValid(rs)
    requires forall key :: key in t.names ==>
               Occurrences(env, t, b, atoms, key, |rs|) == KeyValues(env, t.names[key], rs)
    ensures Index(env, t, b, atoms, |atoms|) == RecordIndex(env, t, rs)
  {
    hide Occurrences;
    hide KeyValues;
    hide AllValid;
  }

  // ----- numbers come back ----------------------------------------------------------------

  /** A number that is written comes back as one value. */
  lemma NumberComesBack(env: Env, f: Field, v: LongLong, asDouble: bool)
    requires 0 < f.id < 0x1000_0000 && f.rule != Packed
    requires WrittenPayload(f.ptype, v, asDouble).Some? && !Elided(f, v, asDouble)
    ensures AllValid(NumberRecords(f, v, asDouble))
    ensures Values(env, f, NumberRecords(f, v, asDouble)) == [Number(Seen(f.ptype, v))]
  {
    assert WrittenPayload(f.ptype, v, asDouble) == ValuePayload(f.ptype, v);
    ValueComesBack(f.ptype, v);
    var p := ValuePayload(f.ptype, v).value;
    ReadAsPlain(f.ptype, v);
    hide WrittenPayload;
    hide ValuePayload;
    hide Elided;
    hide Plain;
    hide Raw;
    hide Seen;
    hide PayloadNumber;
    assert RecordValues(env, f, Record(f.id, p)) == [Number(Seen(f.ptype, v))];
    hide RecordValues;
    var rs := [Record(f.id, p)];
    assert rs[..0] == [];
    assert NumberRecords(f, v, asDouble) == rs;
    assert Values(env, f, rs) == Values(env, f, []) + [Number(Seen(f.ptype, v))];
  }

  /** A number in a record of its own is read as one in a packed field is. */
  lemma ReadAsPlain(ptype: PType, v: LongLong)
    requires ValuePayload(ptype, v).Some?
    ensures var n := PayloadNumber(ValuePayload(ptype, v).value); Plain(ptype, n) == Raw(ptype, n)
  {
  }

  // ----- whole messages ----------------------------------------------------------------------

  function PackedValues(packed: seq<PackedField>, key: string): seq<Value> {
    if packed == [] then []
    else
      var p := packed[|packed| - 1];
      PackedValues(packed[..|packed| - 1], key)
      + if p.key == key && IsNumeric(p.ptype) then Numbers(AllSeen(p.ptype, p.data)) else []
  }

  /** The message that message `i` of the heap stands for: packed fields hold all numbers pushed,
      sub-messages follow in the order of creation, other fields what was written to them. */
  ghost function Meaning(env: Env, nodes: seq<Node>, records: seq<seq<Record>>, i: nat): RMessage
    requires Shape(env, nodes, records) && i < |nodes|
    decreases |nodes| - i, 2
  {
    var names := env[nodes[i].typeName].names;
    RMessage(nodes[i].typeName,
             map key | key in names && KeyMeaning(env, nodes, records, i, key) != [] ::
               Entry(names[key], KeyMeaning(env, nodes, records, i, key)))
  }

  ghost function KeyMeaning(env: Env, nodes: seq<Node>, records: seq<seq<Record>>, i: nat, key: string): seq<Value>
    requires Shape(env, nodes, records) && i < |nodes| && key in env[nodes[i].typeName].names
    decreases |nodes| - i, 1
  {
    var f := env[nodes[i].typeName].names[key];
    DirectValid(env, nodes, records, i);
    if f.rule == Packed then PackedValues(nodes[i].packed, key)
    else if f.ptype == PType.Message then SubMeaning(env, nodes, records, i, key, |nodes[i].sub|)
    else KeyValues(env, f, records[i])
  }

  ghost function SubMeaning(env: Env, nodes: seq<Node>, records: seq<seq<Record>>, i: nat, key: string,
                            n: nat): seq<Value>
    requires Shape(env, nodes, records) && i < |nodes| && n <= |nodes[i].sub|
    decreases |nodes| - i, 0, n
  {
    if n == 0 then []
    else
      var s := nodes[i].sub[n - 1];
      SubMeaning(env, nodes, records, i, key, n - 1)
      + if s.field.name == key then [Value.Sub(Meaning(env, nodes, records, s.child))] else []
  }

  lemma DirectValid(env: Env, nodes: seq<Node>, records: seq<seq<Record>>, i: nat)
    requires Shape(env, nodes, records) && i < |nodes|
    ensures |records| == |nodes| && AllValid(records[i]) && nodes[i].typeName in env
    ensures env[nodes[i].typeName].Coherent()
    ensures NodeFrom(env, nodes, nodes[i]) && RecordsFrom(env[nodes[i].typeName], records[i])
    ensures Downward(nodes) && FieldsOk(nodes) && OneParent(nodes)
  {
  }

  /** The records of one message, by origin. */
  lemma PackedOwn(env: Env, t: MessageType, packed: seq<PackedField>, key: string)
    requires t.Coherent() && key in t.names
    requires forall p <- packed :: PackedFrom(t, p) && 0 < p.id < 0x1000_0000 && PackedFits(p.ptype, p.data)
    ensures AllValid(PackedRecords(packed))
    ensures KeyValues(env, t.names[key], PackedRecords(packed))
         == if t.names[key].rule == Packed then PackedValues(packed, key) else []
  {
    hide *;
    if packed != [] {
      var n := |packed| - 1;
      PackedSplit(packed, key);
      PackedOwn(env, t, packed[..n], key);
      PackedRecordOwn(env, t, packed[n], key);
      KeyValuesConcat(env, t.names[key], PackedRecords(packed[..n]), [PackedRecord(packed[n])]);
    } else {
      PackedNone(env, t.names[key], key);
    }
  }

  lemma PackedNone(env: Env, f: Field, key: string)
    ensures PackedRecords([]) == [] && PackedValues([], key) == [] && AllValid([]) && KeyValues(env, f, []) == []
  {
  }

  lemma PackedSplit(packed: seq<PackedField>, key: string)
    requires packed != [] && forall p <- packed :: p.id >= 0
    ensures var n := |packed| - 1;
            && PackedRecords(packed) == PackedRecords(packed[..n]) + [PackedRecord(packed[n])]
            && PackedValues(packed, key) == PackedValues(packed[..n], key)
               + if packed[n].key == key && IsNumeric(packed[n].ptype)
                 then Numbers(AllSeen(packed[n].ptype, packed[n].data)) else []
  {
    hide *;
    RecordsSplit(packed);
    ValuesSplit(packed, key);
  }

  lemma RecordsSplit(packed: seq<PackedField>)
    requires packed != [] && forall p <- packed :: p.id >= 0
    ensures var n := |packed| - 1;
            PackedRecords(packed) == PackedRecords(packed[..n]) + [PackedRecord(packed[n])]
  {
    hide PackedRecord;
  }

  lemma ValuesSplit(packed: seq<PackedField>, key: string)
    requires packed != []
    ensures var n := |packed| - 1;
            PackedValues(packed, key) == PackedValues(packed[..n], key)
            + if packed[n].key == key && IsNumeric(packed[n].ptype)
              then Numbers(AllSeen(packed[n].ptype, packed[n].data)) else []
  {
    hide AllSeen;
    hide Numbers;
    hide IsNumeric;
  }

  lemma PackedRecordOwn(env: Env, t: MessageType, p: PackedField, key: string)
    requires t.Coherent() && key in t.names
    requires PackedFrom(t, p) && 0 < p.id < 0x1000_0000 && PackedFits(p.ptype, p.data)
    ensures PackedRecord(p).Valid()
    ensures t.names[key].rule != Packed ==> p.key != key
    ensures KeyValues(env, t.names[key], [PackedRecord(p)])
         == if p.key == key && IsNumeric(p.ptype) then Numbers(AllSeen(p.ptype, p.data)) else []
  {
    var f := t.names[key];
    PackedSize(p.ptype, p.data);
    PackedComesBack(p.ptype, p.data);
    ShownAgain(p.ptype, p.data);
    hide PackedPayload;
    hide AllSeen;
    hide Unpacked;
    hide Shown;
    OneRecord(env, f, PackedRecord(p));
    hide KeyValues;
    assert p.id == f.id <==> p.key == key;
  }

  lemma ShownAgain(ptype: PType, data: seq<LongLong>)
    ensures Shown(ptype, AllSeen(ptype, data)) == AllSeen(ptype, data)
    ensures Numbers(Shown(ptype, [])) == []
  {
    hide SignWord;
  }

  lemma OneRecord(env: Env, f: Field, r: Record)
    requires r.Valid()
    ensures KeyValues(env, f, [r]) == if r.id == f.id then RecordValues(env, f, r) else []
  {
    hide RecordValues;
    var rs := [r];
    assert rs[..0] == [];
    assert Own(rs, f.id) == if r.id == f.id then [r] else [];
    if r.id == f.id { assert Values(env, f, rs) == Values(env, f, []) + RecordValues(env, f, r); }
  }

  lemma KeyValuesConcat(env: Env, f: Field, a: seq<Record>, b: seq<Record>)
    requires AllValid(a) && AllValid(b)
    ensures AllValid(a + b)
    ensures KeyValues(env, f, a + b) == KeyValues(env, f, a) + KeyValues(env, f, b)
  {
    OwnConcat(a, b, f.id);
    OwnAmong(a, f.id);
    OwnAmong(b, f.id);
    ValuesConcat(env, f, Own(a, f.id), Own(b, f.id));
  }

  /** Records written directly do not belong to packed fields or to fields of a message type. */
  lemma {:induction false} DirectOwn(env: Env, t: MessageType, rs: seq<Record>, key: string)
    requires t.Coherent() && key in t.names && RecordsFrom(t, rs)
    requires t.names[key].rule == Packed || t.names[key].ptype == PType.Message
    ensures AllValid(rs) && KeyValues(env, t.names[key], rs) == []
  {
    var f := t.names[key];
    forall r | r in rs ensures r.id != f.id { assert RecordFrom(t, r); }
    NoneOwn(rs, f.id);
  }

  lemma SubStep(env: Env, nodes: seq<Node>, records: seq<seq<Record>>, i: nat, key: string, n: nat)
    requires Shape(env, nodes, records) && i < |nodes| && Downward(nodes) && FieldsOk(nodes)
    requires |records| == |nodes| && nodes[i].typeName in env
    requires n < |nodes[i].sub| && ChildRead(env, nodes, records, nodes[i].sub[n].child)
    ensures nodes[i].sub[n].child < |nodes|
    ensures var s := nodes[i].sub[n];
            var m, b := Meaning(env, nodes, records, s.child), Encode(FinalRecords(nodes, records, s.child));
            && |b| < 0x8000_0000 && Read(env, s.field.typeName, b) == Some(m)
            && SubRecords(nodes, records, i, n + 1)
               == SubRecords(nodes, records, i, n) + [Record(s.field.id, Payload.Bytes(b))]
            && SubMeaning(env, nodes, records, i, key, n + 1)
               == SubMeaning(env, nodes, records, i, key, n) + if s.field.name == key then [Value.Sub(m)] else []
    ensures var s, names := nodes[i].sub[n], env[nodes[i].typeName].names;
            && s.field.name in names && names[s.field.name] == s.field
            && s.field.ptype == PType.Message && s.field.rule != Packed
            && 0 < s.field.id < 0x1000_0000 && nodes[s.child].typeName == s.field.typeName
  {
    var s := nodes[i].sub[n];
    assert NodeFrom(env, nodes, nodes[i]);
    assert SubFrom(env[nodes[i].typeName], s, nodes);
    assert |Encode(FinalRecords(nodes, records, s.child))| < 0x8000_0000;
    hide Read;
    hide Meaning;
    hide FinalRecords;
    hide Encode;
    hide Shape;
    hide Fits;
  }

  lemma SubsNone(env: Env, nodes: seq<Node>, records: seq<seq<Record>>, i: nat, key: string)
    requires Shape(env, nodes, records) && i < |nodes| && Downward(nodes) && FieldsOk(nodes) && |records| == |nodes|
    requires nodes[i].typeName in env && key in env[nodes[i].typeName].names
    ensures SubRecords(nodes, records, i, 0) == [] && SubMeaning(env, nodes, records, i, key, 0) == []
    ensures AllValid([]) && KeyValues(env, env[nodes[i].typeName].names[key], []) == []
  {
  }

  /** The sub-messages, read back. */
  lemma {:induction false} SubsOwn(env: Env, nodes: seq<Node>, records: seq<seq<Record>>, i: nat, key: string, n: nat)
    requires Shape(env, nodes, records) && i < |nodes| && Downward(nodes) && FieldsOk(nodes)
    requires |records| == |nodes| && nodes[i].typeName in env && env[nodes[i].typeName].Coherent()
    requires key in env[nodes[i].typeName].names && n <= |nodes[i].sub|
    requires forall k :: 0 <= k < n ==> ChildRead(env, nodes, records, nodes[i].sub[k].child)
    ensures AllValid(SubRecords(nodes, records, i, n))
    ensures var f := env[nodes[i].typeName].names[key];
            KeyValues(env, f, SubRecords(nodes, records, i, n))
            == if f.rule != Packed && f.ptype == PType.Message then SubMeaning(env, nodes, records, i, key, n) else []
    decreases n
  {
    hide *;
    var t := env[nodes[i].typeName];
    if n > 0 {
      var s := nodes[i].sub[n - 1];
      SubStep(env, nodes, records, i, key, n - 1);
      SubsOwn(env, nodes, records, i, key, n - 1);
      var m, b := Meaning(env, nodes, records, s.child), Encode(FinalRecords(nodes, records, s.child));
      SubRecordOwn(env, t, s, key, m, b);
      KeyValuesConcat(env, t.names[key], SubRecords(nodes, records, i, n - 1), [Record(s.field.id, Payload.Bytes(b))]);
    } else {
      SubsNone(env, nodes, records, i, key);
    }
  }

  lemma SubRecordOwn(env: Env, t: MessageType, s: Sub, key: string, m: RMessage, b: seq<byte>)
    requires t.Coherent() && key in t.names && s.field.name in t.names && t.names[s.field.name] == s.field
    requires 0 < s.field.id < 0x1000_0000 && s.field.ptype == PType.Message && s.field.rule != Packed
    requires |b| < 0x8000_0000 && Read(env, s.field.typeName, b) == Some(m)
    ensures AllValid([Record(s.field.id, Payload.Bytes(b))])
    ensures KeyValues(env, t.names[key], [Record(s.field.id, Payload.Bytes(b))])
         == if s.field.name == key then [Value.Sub(m)] else []
    ensures s.field.name == key ==> t.names[key] == s.field
  {
    hide Read;
    OneRecord(env, t.names[key], Record(s.field.id, Payload.Bytes(b)));
  }

  /** Reading what message `c` comes to gives back its meaning. */
  ghost predicate ChildRead(env: Env, nodes: seq<Node>, records: seq<seq<Record>>, c: nat)
    requires Shape(env, nodes, records)
  {
    && c < |nodes| && Fits(nodes, records, c)
    && Read(env, nodes[c].typeName, Encode(FinalRecords(nodes, records, c))) == Some(Meaning(env, nodes, records, c))
  }

  lemma FinalParts(env: Env, nodes: seq<Node>, records: seq<seq<Record>>, i: nat, key: string)
    requires Shape(env, nodes, records) && CanFinish(nodes, records, i)
    requires nodes[i].typeName in env && key in env[nodes[i].typeName].names
    ensures |records| == |nodes| && Downward(nodes) && FieldsOk(nodes)
    ensures var n, t := nodes[i], env[nodes[i].typeName];
            && t.Coherent() && RecordsFrom(t, records[i]) && AllValid(records[i])
            && (forall p <- n.packed :: PackedFrom(t, p) && 0 < p.id < 0x1000_0000 && PackedFits(p.ptype, p.data))
            && FinalRecords(nodes, records, i)
               == records[i] + PackedRecords(n.packed) + SubRecords(nodes, records, i, |n.sub|)
            && KeyMeaning(env, nodes, records, i, key)
               == var f := t.names[key];
                  if f.rule == Packed then PackedValues(n.packed, key)
                  else if f.ptype == PType.Message then SubMeaning(env, nodes, records, i, key, |n.sub|)
                  else KeyValues(env, f, records[i])
  {
    DirectValid(env, nodes, records, i);
    CanFinishFacts(nodes, records, i);
    hide Shape;
    hide CanFinish;
    hide FieldsOk;
    hide PackedFits;
    hide Fits;
    hide Downward;
    hide OneParent;
    hide RecordsFrom;
    hide MessageType.Coherent;
    assert forall p <- nodes[i].packed :: PackedFrom(env[nodes[i].typeName], p);
    hide NodeFrom;
    hide PackedFrom;
  }

  lemma FinalOwn(env: Env, nodes: seq<Node>, records: seq<seq<Record>>, i: nat, key: string)
    requires Shape(env, nodes, records) && CanFinish(nodes, records, i)
    requires i < |nodes| == |records| && Downward(nodes) && FieldsOk(nodes)
    requires nodes[i].typeName in env && key in env[nodes[i].typeName].names
    requires forall k :: 0 <= k < |nodes[i].sub| ==> ChildRead(env, nodes, records, nodes[i].sub[k].child)
    ensures AllValid(FinalRecords(nodes, records, i))
    ensures KeyValues(env, env[nodes[i].typeName].names[key], FinalRecords(nodes, records, i))
         == KeyMeaning(env, nodes, records, i, key)
  {
    hide *;
    FinalParts(env, nodes, records, i, key);
    var n, t := nodes[i], env[nodes[i].typeName];
    var f := t.names[key];
    var a, b, c := records[i], PackedRecords(n.packed), SubRecords(nodes, records, i, |n.sub|);
    SubsOwn(env, nodes, records, i, key, |n.sub|);
    PackedOwn(env, t, n.packed, key);
    KeyValuesConcat(env, f, a, b);
    KeyValuesConcat(env, f, a + b, c);
    if f.rule == Packed || f.ptype == PType.Message { DirectOwn(env, t, a, key); }
  }

  /** A record of a finished message: of a numeric field, packed, or a sub-message. */
  ghost predicate FinalRecord(env: Env, t: MessageType, r: Record) {
    && r.Valid() && Suits(t, r)
    && (r.id in t.ids && t.ids[r.id].rule == Packed ==> r.payload.Bytes? && EndsWhole(t.ids[r.id].ptype, r.payload.b))
    && (r.id in t.ids && t.ids[r.id].rule != Packed && t.ids[r.id].ptype == PType.Message ==>
          r.payload.Bytes? && |r.payload.b| < 0x8000_0000 && SafeToRead(env, t.ids[r.id].typeName, r.payload.b, []))
  }

  ghost predicate FinalAll(env: Env, t: MessageType, rs: seq<Record>) { forall r :: r in rs ==> FinalRecord(env, t, r) }

  /** The reader may be let loose on a child. */
  ghost predicate ChildSliced(env: Env, nodes: seq<Node>, records: seq<seq<Record>>, c: nat)
    requires |records| == |nodes| && Downward(nodes) && FieldsOk(nodes)
  {
    && c < |nodes| && |Encode(FinalRecords(nodes, records, c))| < 0x8000_0000
    && SafeToRead(env, nodes[c].typeName, Encode(FinalRecords(nodes, records, c)), [])
  }

  lemma DirectFinal(env: Env, t: MessageType, rs: seq<Record>)
    requires RecordsFrom(t, rs)
    ensures FinalAll(env, t, rs)
  {
    forall r | r in rs ensures FinalRecord(env, t, r) { assert RecordFrom(t, r); }
  }

  lemma PackedFinal(env: Env, t: MessageType, packed: seq<PackedField>)
    requires t.Coherent()
    requires forall p <- packed :: PackedFrom(t, p) && 0 < p.id < 0x1000_0000 && PackedFits(p.ptype, p.data)
    ensures FinalAll(env, t, PackedRecords(packed))
  {
    var rs := PackedRecords(packed);
    forall r | r in rs ensures FinalRecord(env, t, r) {
      var k :| 0 <= k < |rs| && rs[k] == r;
      var p := packed[k];
      PackedSize(p.ptype, p.data);
      PackedIsWhole(p.ptype, p.data);
      hide PackedPayload;
      hide EndsWhole;
      assert PackedFrom(t, p);
    }
  }

  lemma {:induction false} SubsFinal(env: Env, nodes: seq<Node>, records: seq<seq<Record>>, i: nat, n: nat)
    requires Shape(env, nodes, records) && i < |nodes| && Downward(nodes) && FieldsOk(nodes)
    requires |records| == |nodes| && nodes[i].typeName in env && env[nodes[i].typeName].Coherent()
    requires n <= |nodes[i].sub|
    requires forall k :: 0 <= k < n ==> ChildRead(env, nodes, records, nodes[i].sub[k].child)
    requires forall k :: 0 <= k < n ==> ChildSliced(env, nodes, records, nodes[i].sub[k].child)
    ensures FinalAll(env, env[nodes[i].typeName], SubRecords(nodes, records, i, n))
  {
    hide *;
    var t := env[nodes[i].typeName];
    if n > 0 {
      var s := nodes[i].sub[n - 1];
      SubStep(env, nodes, records, i, "", n - 1);
      SubsFinal(env, nodes, records, i, n - 1);
      SubFinal(env, nodes, records, t, s);
      FinalConcat(env, t, SubRecords(nodes, records, i, n - 1),
                  [Record(s.field.id, Payload.Bytes(Encode(FinalRecords(nodes, records, s.child))))]);
    } else {
      FinalNone(env, t, nodes, records, i);
    }
  }

  lemma FinalNone(env: Env, t: MessageType, nodes: seq<Node>, records: seq<seq<Record>>, i: nat)
    requires |records| == |nodes| && i < |nodes| && Downward(nodes) && FieldsOk(nodes)
    ensures FinalAll(env, t, SubRecords(nodes, records, i, 0))
  {
  }

  lemma SubFinal(env: Env, nodes: seq<Node>, records: seq<seq<Record>>, t: MessageType, s: Sub)
    requires |records| == |nodes| && Downward(nodes) && FieldsOk(nodes) && t.Coherent()
    requires s.field.name in t.names && t.names[s.field.name] == s.field && s.field.ptype == PType.Message
    requires s.field.rule != Packed && 0 < s.field.id < 0x1000_0000
    requires ChildSliced(env, nodes, records, s.child) && nodes[s.child].typeName == s.field.typeName
    ensures s.child < |nodes|
    ensures FinalAll(env, t, [Record(s.field.id, Payload.Bytes(Encode(FinalRecords(nodes, records, s.child))))])
  {
    hide SafeToRead;
    hide Downward;
    hide FieldsOk;
    hide FinalRecords;
  }

  lemma FinalConcat(env: Env, t: MessageType, a: seq<Record>, b: seq<Record>)
    requires FinalAll(env, t, a) && FinalAll(env, t, b)
    ensures FinalAll(env, t, a + b)
  {
    hide FinalRecord;
  }

  /** A message of such records can be read. */
  lemma SlicedRecords(env: Env, typeName: string, rs: seq<Record>)
    requires typeName in env && FinalAll(env, env[typeName], rs) && |Encode(rs)| < 0x8000_0000
    ensures AllValid(rs) && FitToRead(env[typeName], rs)
    ensures SafeToRead(env, typeName, Encode(rs), [])
  {
    var t, b := env[typeName], Encode(rs);
    forall r | r in rs ensures r.Valid() && Suits(t, r) { assert FinalRecord(env, t, r); }
    ParseEncodedAll(rs, 0);
    var atoms := AtomsOf(rs, 0);
    ParsedInside(b, atoms);
    hide *;
    forall a | a in atoms && a.Id() in t.ids ensures SafeAtom(env, t.ids[a.Id()], a, b, []) {
      var k :| 0 <= k < |atoms| && atoms[k] == a;
      SlicedRecord(env, t, rs, k);
    }
    SlicedAtoms(env, typeName, b, atoms);
  }

  lemma SlicedAtoms(env: Env, typeName: string, b: seq<byte>, atoms: seq<Atom>)
    requires typeName in env && |b| < 0x8000_0000 && ParseAll(b, 0) == Some(atoms)
    requires forall a :: a in atoms && a.Id() in env[typeName].ids ==>
               SafeAtom(env, env[typeName].ids[a.Id()], a, b, [])
    ensures SafeToRead(env, typeName, b, [])
  {
    ParsedIsTame(b);
    hide Tame;
    hide Taken;
    hide SafeAtom;
    hide ParseAll;
  }

  lemma SlicedRecord(env: Env, t: MessageType, rs: seq<Record>, k: nat)
    requires FinalAll(env, t, rs) && AllValid(rs) && |Encode(rs)| < 0x8000_0000 && k < |rs|
    requires Inside(AtomsOf(rs, 0)[k], Encode(rs)) && AtomsOf(rs, 0)[k].Id() in t.ids
    ensures SafeAtom(env, t.ids[AtomsOf(rs, 0)[k].Id()], AtomsOf(rs, 0)[k], Encode(rs), [])
  {
    AtomsMatchRecords(rs, [], k);
    var a, r, b := AtomsOf(rs, 0)[k], rs[k], Encode(rs);
    assert [] + b == b;
    assert FinalRecord(env, t, r);
    assert Matches(a, r, b);
    hide *;
    SafeRecord(env, t.ids[a.Id()], a, r, b);
  }

  lemma SafeRecord(env: Env, f: Field, a: Atom, r: Record, b: seq<byte>)
    requires |b| < 0x8000_0000 && Inside(a, b) && Matches(a, r, b)
    requires f.rule == Packed ==> r.payload.Bytes? && EndsWhole(f.ptype, r.payload.b)
    requires f.rule != Packed && f.ptype == PType.Message ==>
      r.payload.Bytes? && |r.payload.b| < 0x8000_0000 && SafeToRead(env, f.typeName, r.payload.b, [])
    ensures SafeAtom(env, f, a, b, [])
  {
    if f.rule == Packed {
      SlicePackedSafe(f.ptype, a, b, []);
    } else if f.ptype == PType.Message {
      SafeMore(env, f.typeName, r.payload.b, [], b[a.hi..]);
      assert [] + b[a.hi..] == b[a.hi..] + [];
    }
    hide PackedSafe;
    hide SafeToRead;
    hide WholeVarints;
  }

  /** A message that may be read may be read with more memory behind it. */
  lemma {:induction false} SafeMore(env: Env, typeName: string, b: seq<byte>, beyond: seq<byte>, more: seq<byte>)
    requires |b| < 0x8000_0000 && SafeToRead(env, typeName, b, beyond)
    ensures SafeToRead(env, typeName, b, beyond + more)
    decreases |b|, 1
  {
    if typeName in env && Taken(b).All? {
      var atoms := Taken(b).atoms;
      forall a | a in atoms && a.Id() in env[typeName].ids
        ensures SafeAtom(env, env[typeName].ids[a.Id()], a, b, beyond + more)
      {
        SafeAtomMore(env, env[typeName].ids[a.Id()], a, b, beyond, more);
      }
    }
    hide SafeAtom;
    hide Taken;
    hide Tame;
  }

  lemma {:induction false} SafeAtomMore(env: Env, f: Field, a: Atom, b: seq<byte>, beyond: seq<byte>, more: seq<byte>)
    requires |b| < 0x8000_0000 && SafeAtom(env, f, a, b, beyond)
    ensures SafeAtom(env, f, a, b, beyond + more)
    decreases |b|, 0
  {
    if f.rule == Packed {
      PackedMore(f.ptype, a, b, beyond, more);
    } else if f.ptype == PType.Message && a.WireType() == WT_LEND {
      SafeMore(env, f.typeName, b[a.low..a.hi], b[a.hi..] + beyond, more);
      assert b[a.hi..] + beyond + more == b[a.hi..] + (beyond + more);
    }
    hide PackedSafe;
    hide SafeToRead;
  }

  lemma PackedMore(ptype: PType, a: Atom, b: seq<byte>, beyond: seq<byte>, more: seq<byte>)
    requires PackedSafe(ptype, a, b, beyond)
    ensures PackedSafe(ptype, a, b, beyond + more)
  {
    hide *;
    SafeParts(ptype, a, b, beyond);
    SafeParts(ptype, a, b, beyond + more);
    var at: int, size: int := a.Start(), a.Size();
    if ReadsSome(ptype, size) && FixedWidth(ptype) == 0 {
      var m := (b + beyond)[at..];
      ReachMore(m, more, size);
      assert m + more == (b + (beyond + more))[at..];
    }
  }

  lemma SafeParts(ptype: PType, a: Atom, b: seq<byte>, beyond: seq<byte>)
    ensures PackedSafe(ptype, a, b, beyond)
       <==> (ReadsSome(ptype, a.Size()) ==>
               && 0 <= a.Start() && a.Start() + a.Size() <= |b|
               && (FixedWidth(ptype) == 0 ==> a.Size() >= 0 && Reach((b + beyond)[a.Start()..], a.Size()).Some?))
    ensures ReadsSome(ptype, a.Size()) ==> a.Size() > 0
  {
    hide Reach;
  }

  /** Whatever the writers did to the messages of a heap, the bytes that message `i` comes to are
      accepted by the reader and give back its meaning, sub-messages included. */
  lemma {:induction false} TreeComesBack(env: Env, nodes: seq<Node>, records: seq<seq<Record>>, i: nat)
    requires Shape(env, nodes, records) && CanFinish(nodes, records, i)
    ensures i < |nodes| == |records| && Downward(nodes) && FieldsOk(nodes)
    ensures ChildRead(env, nodes, records, i) && ChildSliced(env, nodes, records, i)
    decreases |nodes| - i
  {
    hide *;
    CanFinishFacts(nodes, records, i);
    DirectValid(env, nodes, records, i);
    var t := env[nodes[i].typeName];
    forall k: nat | k < |nodes[i].sub|
      ensures ChildRead(env, nodes, records, nodes[i].sub[k].child)
      ensures ChildSliced(env, nodes, records, nodes[i].sub[k].child)
    {
      ChildCanFinish(nodes, records, i, k);
      TreeComesBack(env, nodes, records, nodes[i].sub[k].child);
    }
    forall key | key in t.names
      ensures AllValid(FinalRecords(nodes, records, i))
      ensures KeyValues(env, t.names[key], FinalRecords(nodes, records, i)) == KeyMeaning(env, nodes, records, i, key)
    {
      FinalOwn(env, nodes, records, i, key);
    }
    FinalWhole(env, nodes, records, i);
    SlicedRecords(env, nodes[i].typeName, FinalRecords(nodes, records, i));
    ReadsRecords(env, nodes[i].typeName, FinalRecords(nodes, records, i));
    SameMeaning(env, nodes, records, i);
  }

  lemma ChildCanFinish(nodes: seq<Node>, records: seq<seq<Record>>, i: nat, k: nat)
    requires CanFinish(nodes, records, i) && k < |nodes[i].sub|
    ensures CanFinish(nodes, records, nodes[i].sub[k].child)
  {
  }

  lemma FinalWhole(env: Env, nodes: seq<Node>, records: seq<seq<Record>>, i: nat)
    requires Shape(env, nodes, records) && CanFinish(nodes, records, i)
    requires forall k :: 0 <= k < |nodes[i].sub| ==> ChildRead(env, nodes, records, nodes[i].sub[k].child)
    requires |records| == |nodes| && Downward(nodes) && FieldsOk(nodes) && nodes[i].typeName in env
    requires forall k :: 0 <= k < |nodes[i].sub| ==> ChildSliced(env, nodes, records, nodes[i].sub[k].child)
    ensures FinalAll(env, env[nodes[i].typeName], FinalRecords(nodes, records, i))
    ensures |Encode(FinalRecords(nodes, records, i))| < 0x8000_0000
  {
    DirectValid(env, nodes, records, i);
    CanFinishFacts(nodes, records, i);
    FinalShape(env, nodes, records, i);
    var t, n := env[nodes[i].typeName], nodes[i];
    hide *;
    DirectFinal(env, t, records[i]);
    PackedFinal(env, t, n.packed);
    SubsFinal(env, nodes, records, i, |n.sub|);
    FinalConcat(env, t, records[i], PackedRecords(n.packed));
    FinalConcat(env, t, records[i] + PackedRecords(n.packed), SubRecords(nodes, records, i, |n.sub|));
  }

  lemma FinalShape(env: Env, nodes: seq<Node>, records: seq<seq<Record>>, i: nat)
    requires Shape(env, nodes, records) && CanFinish(nodes, records, i)
    requires |records| == |nodes| && Downward(nodes) && FieldsOk(nodes) && nodes[i].typeName in env
    ensures FinalRecords(nodes, records, i)
         == records[i] + PackedRecords(nodes[i].packed) + SubRecords(nodes, records, i, |nodes[i].sub|)
    ensures |Encode(FinalRecords(nodes, records, i))| < 0x8000_0000
    ensures forall p <- nodes[i].packed :: PackedFrom(env[nodes[i].typeName], p)
  {
    DirectValid(env, nodes, records, i);
    hide Encode;
  }

  lemma SameMeaning(env: Env, nodes: seq<Node>, records: seq<seq<Record>>, i: nat)
    requires Shape(env, nodes, records) && CanFinish(nodes, records, i)
    requires i < |nodes| == |records| && Downward(nodes) && FieldsOk(nodes) && nodes[i].typeName in env
    requires var rs, t := FinalRecords(nodes, records, i), env[nodes[i].typeName];
      && AllValid(rs) && |Encode(rs)| < 0x8000_0000
      && (forall key :: key in t.names ==> KeyValues(env, t.names[key], rs) == KeyMeaning(env, nodes, records, i, key))
      && Read(env, nodes[i].typeName, Encode(rs)) == Some(RMessage(nodes[i].typeName, RecordIndex(env, t, rs)))
      && SafeToRead(env, nodes[i].typeName, Encode(rs), [])
    ensures ChildRead(env, nodes, records, i) && ChildSliced(env, nodes, records, i)
  {
    var rs, t := FinalRecords(nodes, records, i), env[nodes[i].typeName];
    hide *;
    CanFinishFacts(nodes, records, i);
    MeaningIs(env, nodes, records, i, rs);
    ChildIs(env, nodes, records, i);
  }

  lemma MeaningIs(env: Env, nodes: seq<Node>, records: seq<seq<Record>>, i: nat, rs: seq<Record>)
    requires Shape(env, nodes, records) && i < |nodes| && nodes[i].typeName in env && AllValid(rs)
    requires forall key :: key in env[nodes[i].typeName].names ==>
               KeyValues(env, env[nodes[i].typeName].names[key], rs) == KeyMeaning(env, nodes, records, i, key)
    ensures Meaning(env, nodes, records, i) == RMessage(nodes[i].typeName, RecordIndex(env, env[nodes[i].typeName], rs))
  {
    hide Shape;
    hide KeyValues;
    hide KeyMeaning;
    assert RecordIndex(env, env[nodes[i].typeName], rs) == Meaning(env, nodes, records, i).index;
  }

  lemma ChildIs(env: Env, nodes: seq<Node>, records: seq<seq<Record>>, i: nat)
    requires Shape(env, nodes, records) && i < |nodes| == |records| && Downward(nodes) && FieldsOk(nodes)
    requires var b := Encode(FinalRecords(nodes, records, i));
      && Fits(nodes, records, i) && |b| < 0x8000_0000 && SafeToRead(env, nodes[i].typeName, b, [])
      && Read(env, nodes[i].typeName, b) == Some(Meaning(env, nodes, records, i))
    ensures ChildRead(env, nodes, records, i) && ChildSliced(env, nodes, records, i)
  {
    hide Shape;
    hide Fits;
    hide Read;
    hide Meaning;
    hide SafeToRead;
    hide FinalRecords;
    hide Encode;
    hide Downward;
    hide FieldsOk;
  }

  /** Finishing a message and reading the bytes, whatever lies behind them in memory. */
  method SendAndReceive(tree: MessageTree, i: nat, calcHash: string -> nat, msgs: StringMaps.StringMap<string>,
                        beyond: seq<byte>)
    returns (m: Message?, ghost kin: Kin)
    requires TypesOf(msgs, tree.env) && tree.Valid() && CanFinish(tree.nodes, tree.records, i)
    modifies tree`records, tree.writers, set w <- tree.writers :: w.buffer
    ensures m != null && m.value == Meaning(tree.env, old(tree.nodes), old(tree.records), i)
    ensures Family(kin) && m in kin.all
  {
    hide *;
    TreeParts(tree, i);
    TreeComesBack(tree.env, tree.nodes, tree.records, i);
    tree.LinkedIs();
    var typeName := tree.heads[i].typeName;
    var slice := tree.Finish(i);
    m, kin := ReadChild(tree.env, old(tree.nodes), old(tree.records), i, calcHash, msgs, slice, beyond, typeName);
  }

  lemma TreeParts(tree: MessageTree, i: nat)
    requires tree.Valid() && CanFinish(tree.nodes, tree.records, i)
    ensures Shape(tree.env, tree.nodes, tree.records) && tree.Buffers() && tree.Linked() && WellFormed(tree.env)
    ensures |tree.writers| == |tree.records| && i < |tree.nodes| == |tree.records|
    ensures Downward(tree.nodes) && FieldsOk(tree.nodes)
  {
    CanFinishFacts(tree.nodes, tree.records, i);
    hide CanFinish;
    hide Downward;
    hide FieldsOk;
    hide OneParent;
    hide Typed;
    hide WellFormed;
  }

  method ReadChild(env: Env, ghost nodes: seq<Node>, ghost records: seq<seq<Record>>, i: nat,
                   calcHash: string -> nat, msgs: StringMaps.StringMap<string>, slice: seq<byte>, beyond: seq<byte>,
                   typeName: string) returns (m: Message?, ghost kin: Kin)
    requires TypesOf(msgs, env) && WellFormed(env) && Shape(env, nodes, records)
    requires i < |nodes| == |records| && Downward(nodes) && FieldsOk(nodes) && typeName == nodes[i].typeName
    requires ChildRead(env, nodes, records, i) && ChildSliced(env, nodes, records, i)
    requires slice == Encode(FinalRecords(nodes, records, i))
    ensures m != null && m.value == Meaning(env, nodes, records, i) && Family(kin) && m in kin.all
  {
    hide WellFormed;
    hide Shape;
    hide Fits;
    hide Read;
    hide SafeToRead;
    hide Meaning;
    hide Family;
    TypeHeld(msgs, env, nodes, records, i);
    hide TypesOf;
    SafeMore(env, typeName, slice, [], beyond);
    assert [] + beyond == beyond;
    m, kin := RMessages.New(env, calcHash, msgs, typeName, slice, beyond);
  }

  /** The type of a message that was written can be asked for. */
  lemma TypeHeld(msgs: StringMaps.StringMap<string>, env: Env, nodes: seq<Node>, records: seq<seq<Record>>, i: nat)
    requires TypesOf(msgs, env) && Shape(env, nodes, records) && i < |nodes|
    ensures nodes[i].typeName in env && msgs.CanAsk(nodes[i].typeName)
  {
    DirectValid(env, nodes, records, i);
    hide Shape;
    msgs.HeldCanAsk(nodes[i].typeName);
  }

  // ----- what a getter gives for what was written ----------------------------------------------

  /** The types of which both words count. */
  predicate IsWide(ptype: PType) { ptype in {Int64, UInt64, Int32, Fixed64, SFixed64, SInt64} }

  /** What a getter finds: the value picked from the entry, for a key that is there. */
  ghost predicate Found(m: RMessage, key: string, at: int, atHome: bool, x: Value)
    requires key in m.index
  {
    var e := m.index[key];
    e.values != [] && (IsArray(e.field) ==> 0 <= at < |e.values|) && x == Pick(e, at, atHome)
  }

  /** What `pbc_rmessage_integer` or `pbc_rmessage_real` gives for a key. */
  ghost predicate NumberGiven(t: MessageType, m: RMessage, key: string, at: int, atHome: bool, x: LongLong) {
    if key in m.index then Found(m, key, at, atHome, Number(x)) else x == DefaultNumber(t, key)
  }

  /** A number written once to a field that stands alone is given back: when it equals the default
      of an optional field nothing is emitted, and the reader gives the default. */
  lemma WrittenOnce(env: Env, nodes: seq<Node>, records: seq<seq<Record>>, i: nat, key: string, v: LongLong,
                    asDouble: bool, atHome: bool, x: LongLong)
    requires Shape(env, nodes, records) && i < |nodes| == |records| && nodes[i].typeName in env
    requires key in env[nodes[i].typeName].names
    requires var f := env[nodes[i].typeName].names[key];
      && (f.rule == Optional || f.rule == Required) && WrittenPayload(f.ptype, v, asDouble).Some?
      && 0 < f.id < 0x1000_0000 && Own(records[i], f.id) == NumberRecords(f, v, asDouble)
    requires NumberGiven(env[nodes[i].typeName], Meaning(env, nodes, records, i), key, 0, atHome, x)
    ensures var f := env[nodes[i].typeName].names[key];
            if !asDouble then x.low == v.low && (IsWide(f.ptype) ==> x == v)
            else if f.rule == Optional && SameReal(v, f.default) then x == f.default
            else x == if f.ptype == Double then v else Widen(Narrow(v))
  {
    hide *;
    ElidedReal(env[nodes[i].typeName].names[key], v);
    var t := env[nodes[i].typeName];
    var f, rs := t.names[key], NumberRecords(t.names[key], v, asDouble);
    WholeTypes(f.ptype, v, asDouble);
    DirectlyHeld(env, nodes, records, i, key, rs);
    NumberPicked(t, Meaning(env, nodes, records, i), key, atHome, x, Values(env, f, rs));
    if Elided(f, v, asDouble) {
      NumberDefault(t, key, v, asDouble);
    } else {
      NumberComesBack(env, f, v, asDouble);
      SeenKeeps(f.ptype, v, asDouble);
    }
  }

  lemma ElidedReal(f: Field, v: LongLong)
    ensures Elided(f, v, true) <==> f.rule == Optional && SameReal(v, f.default)
  {
    hide SameReal;
  }

  /** The getter gives one of the values, or the default when there is none. */
  lemma NumberPicked(t: MessageType, m: RMessage, key: string, atHome: bool, x: LongLong, values: seq<Value>)
    requires NumberGiven(t, m, key, 0, atHome, x) && (key in m.index <==> values != [])
    requires forall y, home :: key in m.index && Found(m, key, 0, home, y) ==> y in values
    ensures if values == [] then x == DefaultNumber(t, key) else Number(x) in values
  {
    hide Found;
    hide DefaultNumber;
  }

  lemma NumberDefault(t: MessageType, key: string, v: LongLong, asDouble: bool)
    requires key in t.names && t.names[key].id >= 0 && Elided(t.names[key], v, asDouble)
    requires asDouble ==> t.names[key].ptype != Enum
    ensures var f, x := t.names[key], DefaultNumber(t, key);
            && NumberRecords(f, v, asDouble) == []
            && if asDouble then x == f.default && SameReal(v, x)
               else x.low == v.low && (IsWide(f.ptype) ==> x == v)
  {
    hide SameReal;
  }

  lemma WholeTypes(ptype: PType, v: LongLong, asDouble: bool)
    requires WrittenPayload(ptype, v, asDouble).Some?
    ensures ptype != PType.Message && (asDouble ==> ptype != Enum)
    ensures !asDouble && ptype == Enum ==> !IsWide(ptype)
  {
  }

  /** What the message has for a field that is not packed, and whose records are `rs`. */
  lemma DirectlyHeld(env: Env, nodes: seq<Node>, records: seq<seq<Record>>, i: nat, key: string, rs: seq<Record>)
    requires Shape(env, nodes, records) && i < |nodes| == |records| && nodes[i].typeName in env
    requires key in env[nodes[i].typeName].names
    requires var f := env[nodes[i].typeName].names[key];
      f.rule != Packed && f.ptype != PType.Message && Own(records[i], f.id) == rs
    ensures AllValid(rs)
    ensures var f, m := env[nodes[i].typeName].names[key], Meaning(env, nodes, records, i);
            var values := Values(env, f, rs);
            && (key in m.index <==> values != []) && (key in m.index ==> m.index[key] == Entry(f, values))
            && (rs == [] ==> values == [])
            && forall x, atHome :: key in m.index && Found(m, key, 0, atHome, x) ==> x in values
  {
    DirectValid(env, nodes, records, i);
    OwnAmong(records[i], env[nodes[i].typeName].names[key].id);
    assert KeyMeaning(env, nodes, records, i, key) == Values(env, env[nodes[i].typeName].names[key], rs);
    hide Shape;
    hide KeyMeaning;
  }

  lemma SeenKeeps(ptype: PType, v: LongLong, asDouble: bool)
    requires WrittenPayload(ptype, v, asDouble).Some?
    ensures !asDouble ==> Seen(ptype, v).low == v.low && (IsWide(ptype) ==> Seen(ptype, v) == v)
    ensures asDouble ==> Seen(ptype, v) == if ptype == Double then v else Widen(Narrow(v))
  {
    hide SignWord;
    hide Narrow;
    hide Widen;
  }

  /** What `pbc_rmessage_string` gives for a key. */
  ghost predicate TextGiven(t: MessageType, m: RMessage, key: string, at: int, atHome: bool, x: seq<byte>) {
    if key in m.index then Found(m, key, at, atHome, Text(x)) else x == DefaultText(t, key)
  }

  /** A string written once is given back: the same bytes, or, when it was not emitted, the default,
      which has the same length and is the same C string. */
  lemma WrittenText(env: Env, nodes: seq<Node>, records: seq<seq<Record>>, i: nat, key: string, v: seq<byte>, len: nat,
                    atHome: bool, x: seq<byte>)
    requires Shape(env, nodes, records) && i < |nodes| == |records| && nodes[i].typeName in env
    requires key in env[nodes[i].typeName].names && len <= |v| && len < 0x8000_0000
    requires var f := env[nodes[i].typeName].names[key];
      && (f.rule == Optional || f.rule == Required) && f.ptype in {String, PType.Bytes} && 0 < f.id < 0x1000_0000
      && Own(records[i], f.id) == TextRecords(f, v, len)
    requires TextGiven(env[nodes[i].typeName], Meaning(env, nodes, records, i), key, 0, atHome, x)
    ensures var f := env[nodes[i].typeName].names[key];
            if f.rule == Optional && f.ptype == String && len == |f.defaultText| && CString(v) == CString(f.defaultText)
              then |x| == len && CString(x) == CString(v)
            else if f.rule == Optional && f.ptype == PType.Bytes && len == 0 then x == f.defaultText
            else x == v[..len]
  {
    hide *;
    ElidedPlain(env[nodes[i].typeName].names[key], v, len);
    var t := env[nodes[i].typeName];
    var f, rs := t.names[key], TextRecords(t.names[key], v, len);
    DirectlyHeld(env, nodes, records, i, key, rs);
    TextPicked(t, Meaning(env, nodes, records, i), key, atHome, x, Values(env, f, rs));
    TextComesBack(env, f, v, len);
    if ElidedText(f, v, len) { DefaultGiven(t, key, v, len); }
  }

  /** The getter gives one of the values, or the default when there is none. */
  lemma TextPicked(t: MessageType, m: RMessage, key: string, atHome: bool, x: seq<byte>, values: seq<Value>)
    requires TextGiven(t, m, key, 0, atHome, x) && (key in m.index <==> values != [])
    requires forall y, home :: key in m.index && Found(m, key, 0, home, y) ==> y in values
    ensures if values == [] then x == DefaultText(t, key) else Text(x) in values
  {
    hide Found;
    hide DefaultText;
  }

  lemma ElidedPlain(f: Field, v: seq<byte>, len: nat)
    requires len <= |v|
    ensures f.ptype == String ==>
              (ElidedText(f, v, len) <==>
                 f.rule == Optional && len == |f.defaultText| && CString(v) == CString(f.defaultText))
    ensures f.ptype == PType.Bytes ==> (ElidedText(f, v, len) <==> f.rule == Optional && len == 0)
    ensures f.ptype == Enum ==> (ElidedText(f, v, len) <==> f.rule == Optional && v[..len] == CString(f.defaultText))
  {
    hide CString;
  }

  lemma DefaultGiven(t: MessageType, key: string, v: seq<byte>, len: nat)
    requires key in t.names && len <= |v| && ElidedText(t.names[key], v, len)
    requires t.names[key].ptype in {String, PType.Bytes}
    ensures var f, x := t.names[key], DefaultText(t, key);
            if f.ptype == String then |x| == len && CString(x) == CString(v) else len == 0 && x == f.defaultText
  {
    hide CString;
  }

  lemma TextComesBack(env: Env, f: Field, v: seq<byte>, len: nat)
    requires 0 < f.id < 0x1000_0000 && f.rule != Packed && f.ptype in {String, PType.Bytes} && len <= |v|
    requires AllValid(TextRecords(f, v, len))
    ensures Values(env, f, TextRecords(f, v, len)) == if ElidedText(f, v, len) then [] else [Text(v[..len])]
  {
    hide ElidedText;
    if !ElidedText(f, v, len) {
      var r := Record(f.id, Payload.Bytes(v[..len]));
      assert [r][..0] == [];
      assert RecordValues(env, f, r) == [Text(v[..len])];
      hide RecordValues;
      assert Values(env, f, [r]) == Values(env, f, []) + RecordValues(env, f, r);
    }
  }

  /** The name is that of the default of an optional field. */
  predicate DefaultName(f: Field, v: seq<byte>, len: nat)
    requires len <= |v|
  {
    f.rule == Optional && v[..len] == CString(f.defaultText)
  }

  /** A name written once is given back as the number that the table of the enum has for it, or as that of the
      default when it is the name of it. */
  lemma WrittenName(env: Env, nodes: seq<Node>, records: seq<seq<Record>>, i: nat, key: string, v: seq<byte>, len: nat,
                    atHome: bool, x: LongLong)
    requires Shape(env, nodes, records) && i < |nodes| == |records| && nodes[i].typeName in env
    requires key in env[nodes[i].typeName].names && len <= |v|
    requires var f := env[nodes[i].typeName].names[key];
      && (f.rule == Optional || f.rule == Required) && f.ptype == Enum && 0 < f.id < 0x1000_0000
      && (DefaultName(f, v, len) || Chars(CString(v[..len])) in f.values.ids)
      && Own(records[i], f.id) == TextRecords(f, v, len)
    requires NumberGiven(env[nodes[i].typeName], Meaning(env, nodes, records, i), key, 0, atHome, x)
    ensures var f, name := env[nodes[i].typeName].names[key], Chars(CString(v[..len]));
            if DefaultName(f, v, len) then x == LongLong(f.default.low, 0)
            else
              && name in f.values.ids && x.hi == 0
              && f.values.ids[name] == if x.low < 0x8000_0000 then x.low else x.low - 0x1_0000_0000
  {
    hide *;
    var t := env[nodes[i].typeName];
    var f, rs := t.names[key], TextRecords(t.names[key], v, len);
    DirectlyHeld(env, nodes, records, i, key, rs);
    NumberPicked(t, Meaning(env, nodes, records, i), key, atHome, x, Values(env, f, rs));
    ElidedPlain(f, v, len);
    NumberOfName(f, v, len);
    NameKnown(t, key, v, len);
    if !ElidedText(f, v, len) { NameComesBack(env, f, v, len); }
  }

  lemma NumberOfName(f: Field, v: seq<byte>, len: nat)
    requires len <= |v|
    ensures DefaultName(f, v, len) <==> f.rule == Optional && v[..len] == CString(f.defaultText)
    ensures var x, name := NameNumber(f, v, len), Chars(CString(v[..len]));
            && (x.Some? <==> name in f.values.ids)
            && (x.Some? ==>
                  && x.value.hi == 0
                  && f.values.ids[name]
                     == if x.value.low < 0x8000_0000 then x.value.low else x.value.low - 0x1_0000_0000)
  {
    hide CString;
    hide Chars;
  }

  /** A name that is written once and read as a name comes back as a name of the same number, and as itself when no
      two names have one number, or when it is that of the default. */
  lemma NameThereAndBack(env: Env, nodes: seq<Node>, records: seq<seq<Record>>, i: nat, key: string, v: seq<byte>,
                         len: nat, atHome: bool, n: Option<string>, e: EnumType)
    requires Shape(env, nodes, records) && i < |nodes| == |records| && nodes[i].typeName in env
    requires key in env[nodes[i].typeName].names && len <= |v|
    requires var f := env[nodes[i].typeName].names[key];
      && (f.rule == Optional || f.rule == Required) && f.ptype == Enum && 0 < f.id < 0x1000_0000
      && (DefaultName(f, v, len) || Chars(CString(v[..len])) in f.values.ids)
      && Own(records[i], f.id) == TextRecords(f, v, len) && e.Valid() && e.Answers(f.values)
    requires NameGiven(env[nodes[i].typeName], Meaning(env, nodes, records, i), key, 0, atHome, n)
    ensures var f, name := env[nodes[i].typeName].names[key], Chars(CString(v[..len]));
            if DefaultName(f, v, len) then n == Some(name)
            else
              && (exists k: i32 :: Has(e.values, k, name) && n.Some? && Has(e.values, k, n.value))
              && (FixedTables.DistinctKeys(e.values) ==> n == Some(name))
  {
    hide *;
    var t, m := env[nodes[i].typeName], Meaning(env, nodes, records, i);
    var f, rs, name := t.names[key], TextRecords(t.names[key], v, len), Chars(CString(v[..len]));
    DirectlyHeld(env, nodes, records, i, key, rs);
    NumberOfName(f, v, len);
    ElidedPlain(f, v, len);
    NameKnown(t, key, v, len);
    if ElidedText(f, v, len) {
      DefaultNamed(t, m, key, atHome, n, v, len);
    } else {
      NameComesBack(env, f, v, len);
      NameFound(t, m, key, atHome, n, NameNumber(f, v, len).value, Values(env, f, rs));
      NamesAgree(e, f.values, name, f.values.ids[name], n);
    }
  }

  lemma DefaultNamed(t: MessageType, m: RMessage, key: string, atHome: bool, n: Option<string>, v: seq<byte>, len: nat)
    requires key in t.names && key !in m.index && NameGiven(t, m, key, 0, atHome, n) && len <= |v|
    requires v[..len] == CString(t.names[key].defaultText)
    ensures n == Some(Chars(CString(v[..len])))
  {
    CStringTwice(t.names[key].defaultText);
    hide CString;
    hide Chars;
  }

  lemma {:induction false} CStringTwice(b: seq<byte>)
    ensures CString(CString(b)) == CString(b)
  {
    if b != [] && b[0] != 0 { CStringTwice(b[1..]); }
  }

  lemma NameFound(t: MessageType, m: RMessage, key: string, atHome: bool, n: Option<string>, x: LongLong,
                  values: seq<Value>)
    requires key in t.names && NameGiven(t, m, key, 0, atHome, n) && values == [Number(x)]
    requires key in m.index && m.index[key].values == values
    ensures var i, names := if x.low < 0x8000_0000 then x.low else x.low - 0x1_0000_0000, t.names[key].values.names;
            n == if i in names then Some(names[i]) else None
  {
  }

  lemma NamesAgree(e: EnumType, x: EnumNames, name: string, k: i32, n: Option<string>)
    requires e.Valid() && e.Answers(x) && name in x.ids && x.ids[name] == k
    requires n == if k in x.names then Some(x.names[k]) else None
    ensures exists k: i32 :: Has(e.values, k, name) && n.Some? && Has(e.values, k, n.value)
    ensures FixedTables.DistinctKeys(e.values) ==> n == Some(name)
  {
    hide *;
    e.AnswersTrue(x);
    assert Has(e.values, k, name);
    if FixedTables.DistinctKeys(e.values) { OneName(e.values, k, name, n.value); }
  }

  /** The name that is given for a number is one of the number that `pbc_rmessage_integer` gives. */
  lemma NameOfInteger(t: MessageType, m: RMessage, key: string, at: int, atHome: bool, v: LongLong, n: Option<string>,
                      e: EnumType)
    requires key in t.names && key in m.index && e.Valid() && e.Answers(t.names[key].values)
    requires NumberGiven(t, m, key, at, atHome, v) && NameGiven(t, m, key, at, atHome, n)
    ensures var i := if v.low < 0x8000_0000 then v.low else v.low - 0x1_0000_0000;
            (n.None? <==> forall s :: !Has(e.values, i, s)) && (n.Some? ==> Has(e.values, i, n.value))
  {
    NameIsTrue(t, m, key, at, atHome, e, n);
    hide EnumType.Valid;
    hide EnumType.Answers;
    hide Has;
    hide Pick;
    hide IsArray;
  }

  lemma NameKnown(t: MessageType, key: string, v: seq<byte>, len: nat)
    requires key in t.names && len <= |v| && t.names[key].id >= 0
    requires t.names[key].ptype == Enum && t.names[key].rule != Packed
    requires ElidedText(t.names[key], v, len) || NameNumber(t.names[key], v, len).Some?
    ensures var f := t.names[key];
            if ElidedText(f, v, len) then
              DefaultNumber(t, key) == LongLong(f.default.low, 0) && TextRecords(f, v, len) == []
            else NameNumber(f, v, len).Some?
  {
    hide NameNumber;
  }

  /** The number of a name comes back as one value. */
  lemma NameComesBack(env: Env, f: Field, v: seq<byte>, len: nat)
    requires 0 < f.id < 0x1000_0000 && f.rule != Packed && f.ptype == Enum && len <= |v|
    requires !ElidedText(f, v, len) && NameNumber(f, v, len).Some?
    ensures AllValid(TextRecords(f, v, len))
    ensures Values(env, f, TextRecords(f, v, len)) == [Number(NameNumber(f, v, len).value)]
  {
    var x := NameNumber(f, v, len).value;
    assert x.hi == 0;
    hide NameNumber;
    SmallHalves(x.low);
    var r := Record(f.id, VarintValue(x.low));
    assert [r][..0] == [];
    assert RecordValues(env, f, r) == [Number(x)];
    assert Values(env, f, [r]) == Values(env, f, []) + RecordValues(env, f, r);
  }

  /** The records of the numbers written one after the other to a field. */
  function RecordsOf(f: Field, vs: seq<LongLong>, asDouble: bool): seq<Record>
    requires f.id >= 0
  {
    if vs == [] then [] else RecordsOf(f, vs[..|vs| - 1], asDouble) + NumberRecords(f, vs[|vs| - 1], asDouble)
  }

  function SeenOf(ptype: PType, vs: seq<LongLong>): (r: seq<LongLong>)
    ensures |r| == |vs| && forall k :: 0 <= k < |vs| ==> r[k] == Seen(ptype, vs[k])
  {
    seq(|vs|, k requires 0 <= k < |vs| => Seen(ptype, vs[k]))
  }

  /** Numbers written to a repeated field are given back in the order of writing. */
  lemma {:induction false} NumbersComeBack(env: Env, f: Field, vs: seq<LongLong>, asDouble: bool)
    requires 0 < f.id < 0x1000_0000 && f.rule == Repeated
    requires forall v <- vs :: WrittenPayload(f.ptype, v, asDouble).Some?
    ensures AllValid(RecordsOf(f, vs, asDouble))
    ensures Values(env, f, RecordsOf(f, vs, asDouble)) == Numbers(SeenOf(f.ptype, vs))
  {
    hide *;
    if vs != [] {
      var n := |vs| - 1;
      LastNumber(f, vs, asDouble);
      NumbersComeBack(env, f, vs[..n], asDouble);
      NumberComesBack(env, f, vs[n], asDouble);
      ValuesConcat(env, f, RecordsOf(f, vs[..n], asDouble), NumberRecords(f, vs[n], asDouble));
      assert Numbers(SeenOf(f.ptype, vs)) == Numbers(SeenOf(f.ptype, vs[..n])) + [Number(Seen(f.ptype, vs[n]))];
    } else {
      NoNumbers(env, f, asDouble);
    }
  }

  lemma NoNumbers(env: Env, f: Field, asDouble: bool)
    requires f.id >= 0
    ensures RecordsOf(f, [], asDouble) == [] && AllValid([]) && Values(env, f, []) == []
  {
  }

  lemma LastNumber(f: Field, vs: seq<LongLong>, asDouble: bool)
    requires f.id >= 0 && vs != []
    ensures var n := |vs| - 1;
            && RecordsOf(f, vs, asDouble) == RecordsOf(f, vs[..n], asDouble) + NumberRecords(f, vs[n], asDouble)
            && SeenOf(f.ptype, vs) == SeenOf(f.ptype, vs[..n]) + [Seen(f.ptype, vs[n])]
    ensures f.rule == Repeated ==> !Elided(f, vs[|vs| - 1], asDouble)
  {
    assert RecordsOf(f, vs, asDouble)
           == RecordsOf(f, vs[..|vs| - 1], asDouble) + NumberRecords(f, vs[|vs| - 1], asDouble);
    assert f.rule == Repeated ==> !Elided(f, vs[|vs| - 1], asDouble);
    hide *;
    SeenOfLast(f.ptype, vs);
  }

  lemma SeenOfLast(ptype: PType, vs: seq<LongLong>)
    requires vs != []
    ensures var n := |vs| - 1; SeenOf(ptype, vs) == SeenOf(ptype, vs[..n]) + [Seen(ptype, vs[n])]
  {
    hide *;
  }

  lemma WrittenRepeatedly(env: Env, nodes: seq<Node>, records: seq<seq<Record>>, i: nat, key: string,
                          vs: seq<LongLong>, asDouble: bool)
    requires Shape(env, nodes, records) && i < |nodes| == |records| && nodes[i].typeName in env
    requires key in env[nodes[i].typeName].names && vs != []
    requires var f := env[nodes[i].typeName].names[key];
      && f.rule == Repeated && 0 < f.id < 0x1000_0000
      && (forall v <- vs :: WrittenPayload(f.ptype, v, asDouble).Some?)
      && Own(records[i], f.id) == RecordsOf(f, vs, asDouble)
    ensures var f, index := env[nodes[i].typeName].names[key], Meaning(env, nodes, records, i).index;
            key in index && index[key] == Entry(f, Numbers(SeenOf(f.ptype, vs)))
  {
    var f := env[nodes[i].typeName].names[key];
    WholeTypes(f.ptype, vs[0], asDouble);
    NumbersComeBack(env, f, vs, asDouble);
    DirectlyHeld(env, nodes, records, i, key, RecordsOf(f, vs, asDouble));
    assert |Numbers(SeenOf(f.ptype, vs))| == |vs|;
    hide *;
  }

  /** All numbers pushed to a packed field are given back in order. */
  lemma WrittenPacked(env: Env, nodes: seq<Node>, records: seq<seq<Record>>, i: nat, k: nat)
    requires Shape(env, nodes, records) && i < |nodes| && nodes[i].typeName in env && k < |nodes[i].packed|
    requires var p := nodes[i].packed[k]; IsNumeric(p.ptype) && p.data != []
    ensures var p, t, index := nodes[i].packed[k], env[nodes[i].typeName], Meaning(env, nodes, records, i).index;
            && p.key in t.names && p.key in index
            && index[p.key] == Entry(t.names[p.key], Numbers(AllSeen(p.ptype, p.data)))
  {
    DirectValid(env, nodes, records, i);
    var p, t := nodes[i].packed[k], env[nodes[i].typeName];
    assert PackedFrom(t, p) && KeysDistinct(nodes[i].packed);
    ValuesOfPacked(nodes[i].packed, k, |nodes[i].packed|);
    assert nodes[i].packed[..|nodes[i].packed|] == nodes[i].packed;
    assert KeyMeaning(env, nodes, records, i, p.key) == Numbers(AllSeen(p.ptype, p.data));
    hide KeyMeaning;
    hide Shape;
  }

  lemma {:induction false} ValuesOfPacked(packed: seq<PackedField>, k: nat, n: nat)
    requires KeysDistinct(packed) && k < |packed| && n <= |packed| && IsNumeric(packed[k].ptype)
    ensures PackedValues(packed[..n], packed[k].key)
         == if k < n then Numbers(AllSeen(packed[k].ptype, packed[k].data)) else []
  {
    hide *;
    PackedValuesAt(packed, packed[k].key, n);
    DistinctAt(packed, k, n - 1);
    if n > 0 {
      ValuesOfPacked(packed, k, n - 1);
    }
  }

  lemma PackedValuesAt(packed: seq<PackedField>, key: string, n: nat)
    requires n <= |packed|
    ensures n == 0 ==> PackedValues(packed[..n], key) == []
    ensures n > 0 ==>
              var p := packed[n - 1];
              PackedValues(packed[..n], key)
              == PackedValues(packed[..n - 1], key)
                 + if p.key == key && IsNumeric(p.ptype) then Numbers(AllSeen(p.ptype, p.data)) else []
  {
    hide AllSeen;
    if n > 0 { assert packed[..n][..n - 1] == packed[..n - 1]; }
  }

  lemma DistinctAt(packed: seq<PackedField>, k: nat, n: int)
    requires KeysDistinct(packed) && k < |packed|
    ensures 0 <= n < |packed| && n != k ==> packed[n].key != packed[k].key
  {
  }

  /** A write adds its own records to those of its field and nothing to other fields. */
  lemma OwnAfterNumber(env: Env, nodes: seq<Node>, records: seq<seq<Record>>, nodes': seq<Node>,
                       records': seq<seq<Record>>, i: nat, key: string, v: LongLong, asDouble: bool, r: int, j: nat,
                       other: string)
    requires Shape(env, nodes, records) && i < |nodes| == |nodes'| && j < |nodes| && |records| == |nodes|
    requires NumberWritten(env, nodes, records, nodes', records', i, key, v, asDouble, r)
    requires nodes[i].typeName in env && nodes[j].typeName in env && env[nodes[i].typeName].Coherent()
    requires key in env[nodes[i].typeName].names && other in env[nodes[j].typeName].names
    requires env[nodes[i].typeName].names[key].rule != Packed && env[nodes[i].typeName].names[key].id >= 0
    ensures |records'| == |records|
    ensures var f, o := env[nodes[i].typeName].names[key], env[nodes[j].typeName].names[other];
            Own(records'[j], o.id)
              == Own(records[j], o.id) + if i == j && key == other then NumberRecords(f, v, asDouble) else []
  {
    var f, o := env[nodes[i].typeName].names[key], env[nodes[j].typeName].names[other];
    var own := Own(records[j], o.id);
    assert own + [] == own;
    if i == j {
      OwnConcat(records[i], NumberRecords(f, v, asDouble), o.id);
      OwnOfNumber(f, v, asDouble, o.id);
    }
  }

  lemma OwnOfNumber(f: Field, v: LongLong, asDouble: bool, id: int)
    requires f.id >= 0
    ensures Own(NumberRecords(f, v, asDouble), id) == if f.id == id then NumberRecords(f, v, asDouble) else []
  {
    var rs := NumberRecords(f, v, asDouble);
    hide WrittenPayload;
    if |rs| == 1 { assert rs[..0] == []; }
  }

  /** The same for a string. */
  lemma OwnAfterText(env: Env, nodes: seq<Node>, records: seq<seq<Record>>, nodes': seq<Node>,
                     records': seq<seq<Record>>, i: nat, key: string, v: seq<byte>, len: nat, r: int, j: nat,
                     other: string)
    requires Shape(env, nodes, records) && i < |nodes| == |nodes'| == |records| && j < |nodes| && len <= |v|
    requires TextWritten(env, nodes, records, nodes', records', i, key, v, len, r)
    requires nodes[i].typeName in env && nodes[j].typeName in env && env[nodes[i].typeName].Coherent()
    requires key in env[nodes[i].typeName].names && other in env[nodes[j].typeName].names
    requires env[nodes[i].typeName].names[key].rule != Packed && env[nodes[i].typeName].names[key].id >= 0
    ensures |records'| == |records|
    ensures var f, o := env[nodes[i].typeName].names[key], env[nodes[j].typeName].names[other];
            Own(records'[j], o.id)
              == Own(records[j], o.id) + if i == j && key == other then TextRecords(f, v, len) else []
  {
    var f, o := env[nodes[i].typeName].names[key], env[nodes[j].typeName].names[other];
    var own := Own(records[j], o.id);
    assert own + [] == own;
    if i == j {
      OwnConcat(records[i], TextRecords(f, v, len), o.id);
      OwnOfText(f, v, len, o.id);
    }
  }

  lemma OwnOfText(f: Field, v: seq<byte>, len: nat, id: int)
    requires f.id >= 0 && len <= |v|
    ensures Own(TextRecords(f, v, len), id) == if f.id == id then TextRecords(f, v, len) else []
  {
    var rs := TextRecords(f, v, len);
    hide NameNumber;
    if |rs| == 1 { assert rs[..0] == []; }
  }
}
