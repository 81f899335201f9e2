/** Messages being written (lualib-src/pbc/src/wmessage.c): a tree of messages that share one
    page heap, filled key by key and turned into bytes at the end. */
module WMessages {
  import opened Words
  import opened Wire
  import opened Schemas
  import opened Reals
  import opened Writers
  import opened TypeTables
  import opened Enums
  import PackedTables
  import StringMaps

  datatype Sub = Sub(field: Field, child: nat)

  /** The part of `struct pbc_wmessage` that is not the byte buffer. A message is known by its
      place in the order of creation. The packed fields stand in slot order. */
  datatype Node = Node(typeName: string, packed: seq<PackedField>, sub: seq<Sub>)

  /** The same without the table of packed fields. */
  datatype Head = Head(typeName: string, sub: seq<Sub>)

  function PackedOf(nodes: seq<Node>): (r: seq<seq<PackedField>>)
    ensures |r| == |nodes| && forall i :: 0 <= i < |nodes| ==> r[i] == nodes[i].packed
  {
    seq(|nodes|, i requires 0 <= i < |nodes| => nodes[i].packed)
  }

  // ----- what one write adds -----------------------------------------------------------

  /** An optional number that equals its default is not written; doubles are compared as such. */
  predicate Elided(f: Field, v: LongLong, asDouble: bool) {
    && f.rule == Optional
    && if asDouble then SameReal(v, f.default)
       else if f.ptype == Enum then v.low == f.default.low else v == f.default
  }

  /** The records that one write of a number adds to a field that is not packed. */
  function NumberRecords(f: Field, v: LongLong, asDouble: bool): seq<Record>
    requires f.id >= 0
  {
    if Elided(f, v, asDouble) then []
    else match WrittenPayload(f.ptype, v, asDouble) case None => [] case Some(p) => [Record(f.id, p)]
  }

  /** How much of `v` the call writes: `len` bytes, or, when `len` is not positive, the string
      and `-len` bytes more. */
  function TextLength(v: seq<byte>, len: int): nat { if len <= 0 then |CString(v)| - len else len }

  /** Memory that the call may read: a string that ends where its end is looked for, and as many
      bytes as are written. For an enum one byte more is looked at when the end was looked for, and the byte
      of the default's name at the given length. */
  predicate TextReadable(f: Field, v: seq<byte>, len: int) {
    && (len <= 0 ==> CString(v) != v)
    && TextLength(v, len) <= |v| && TextLength(v, len) < 0x8000_0000
    && (f.rule == Optional && f.ptype == String && TextLength(v, len) == |f.defaultText| ==> CString(v) != v)
    && (f.ptype == Enum ==>
          && (len <= 0 ==> TextLength(v, len) < |v|)
          && (f.rule == Optional && CString(v[..TextLength(v, len)]) == CString(f.defaultText) ==>
                TextLength(v, len) <= |CString(f.defaultText)|))
  }

  predicate ElidedText(f: Field, v: seq<byte>, len: nat)
    requires len <= |v|
  {
    && f.rule == Optional
    && match f.ptype
       case String => len == |f.defaultText| && CString(v) == CString(f.defaultText)
       case Bytes => len == 0
       case Enum => v[..len] == CString(f.defaultText)
       case _ => false
  }

  /** What the table of the enum has for the name that the call gives, as the words of a number. */
  function NameNumber(f: Field, v: seq<byte>, len: nat): Option<LongLong>
    requires len <= |v|
  {
    var n := Chars(CString(v[..len]));
    if n in f.values.ids then Some(LongLong(Unsigned32(f.values.ids[n]), 0)) else None
  }

  /** The call fails for want of the name. */
  predicate NoSuchName(f: Field, v: seq<byte>, len: nat)
    requires len <= |v|
  {
    f.ptype == Enum && (f.rule == Packed || !ElidedText(f, v, len)) && NameNumber(f, v, len).None?
  }

  function TextRecords(f: Field, v: seq<byte>, len: nat): seq<Record>
    requires f.id >= 0 && len <= |v|
  {
    if ElidedText(f, v, len) then []
    else match f.ptype
         case String | Bytes => [Record(f.id, Payload.Bytes(v[..len]))]
         case Enum => (match NameNumber(f, v, len) case None => [] case Some(x) => [Record(f.id, VarintValue(x.low))])
         case _ => []
  }

  function PackedRecord(p: PackedField): Record
    requires p.id >= 0
  {
    Record(p.id, Payload.Bytes(PackedPayload(p.ptype, p.data)))
  }

  // ----- the whole message ---------------------------------------------------------------

  /** Sub-messages are younger than the message they belong to. */
  ghost predicate Downward(nodes: seq<Node>) {
    forall i, k :: 0 <= i < |nodes| && 0 <= k < |nodes[i].sub| ==> i < nodes[i].sub[k].child < |nodes|
  }

  /** No message belongs to two others, or twice to one. */
  ghost predicate OneParent(nodes: seq<Node>) {
    forall i, k, j, l ::
      0 <= i < |nodes| && 0 <= k < |nodes[i].sub| && 0 <= j < |nodes| && 0 <= l < |nodes[j].sub| ==>
        nodes[i].sub[k].child == nodes[j].sub[l].child ==> i == j && k == l
  }

  /** The entry of a packed field carries the id and type of the field. */
  ghost predicate PackedFrom(t: MessageType, p: PackedField) {
    p.key in t.names && var f := t.names[p.key]; f.rule == Packed && p.id == f.id && p.ptype == f.ptype
  }

  /** A record that fits a field of the type that is not packed. */
  ghost predicate RecordFrom(t: MessageType, r: Record) {
    && r.id in t.ids && t.ids[r.id].rule != Packed
    && match t.ids[r.id].ptype
       case Int64 | UInt64 | Int32 | UInt32 | Enum | Bool | SInt32 | SInt64 => r.payload.VarintValue?
       case Fixed64 | SFixed64 | Double => r.payload.Fixed64Value?
       case Fixed32 | SFixed32 | Float => r.payload.Fixed32Value?
       case String | Bytes => r.payload.Bytes?
       case _ => false
  }

  ghost predicate SubFrom(t: MessageType, s: Sub, nodes: seq<Node>) {
    && s.field.name in t.names && t.names[s.field.name] == s.field
    && s.field.ptype == Message && s.field.rule != Packed
    && s.child < |nodes| && nodes[s.child].typeName == s.field.typeName
  }

  ghost predicate NodeFrom(env: Env, nodes: seq<Node>, n: Node) {
    && n.typeName in env
    && (forall k :: 0 <= k < |n.packed| ==> PackedFrom(env[n.typeName], n.packed[k]))
    && KeysDistinct(n.packed)
    && (forall k :: 0 <= k < |n.sub| ==> SubFrom(env[n.typeName], n.sub[k], nodes))
  }

  ghost predicate RecordsFrom(t: MessageType, rs: seq<Record>) {
    forall r :: r in rs ==> r.Valid() && RecordFrom(t, r)
  }

  /** All messages are built from fields of their types. */
  ghost predicate Typed(env: Env, nodes: seq<Node>, records: seq<seq<Record>>) {
    && |records| == |nodes|
    && (forall i :: 0 <= i < |nodes| ==> NodeFrom(env, nodes, nodes[i]))
    && (forall i :: 0 <= i < |nodes| ==> RecordsFrom(env[nodes[i].typeName], records[i]))
  }

  ghost predicate FieldsOk(nodes: seq<Node>) {
    forall i :: 0 <= i < |nodes| ==>
      && (forall k :: 0 <= k < |nodes[i].sub| ==> 0 < nodes[i].sub[k].field.id < 0x1000_0000)
      && (forall k :: 0 <= k < |nodes[i].packed| ==> 0 < nodes[i].packed[k].id < 0x1000_0000)
  }

  function PackedRecords(packed: seq<PackedField>): (rs: seq<Record>)
    requires forall k :: 0 <= k < |packed| ==> packed[k].id >= 0
    ensures |rs| == |packed|
  {
    seq(|packed|, k requires 0 <= k < |packed| => PackedRecord(packed[k]))
  }

  /** The records of message `i` once it is finished: what was written directly, then its packed
      fields in slot order, then its sub-messages in the order of creation. */
  ghost function FinalRecords(nodes: seq<Node>, records: seq<seq<Record>>, i: nat): seq<Record>
    requires |records| == |nodes| && i < |nodes| && Downward(nodes) && FieldsOk(nodes)
    decreases |nodes| - i, 1, 0
  {
    records[i] + PackedRecords(nodes[i].packed) + SubRecords(nodes, records, i, |nodes[i].sub|)
  }

  ghost function SubRecords(nodes: seq<Node>, records: seq<seq<Record>>, i: nat, n: nat): (rs: seq<Record>)
    requires |records| == |nodes| && i < |nodes| && Downward(nodes) && FieldsOk(nodes)
    requires n <= |nodes[i].sub|
    ensures |rs| == n
    decreases |nodes| - i, 0, n
  {
    if n == 0 then []
    else
      var s := nodes[i].sub[n - 1];
      SubRecords(nodes, records, i, n - 1)
      + [Record(s.field.id, Payload.Bytes(Encode(FinalRecords(nodes, records, s.child))))]
  }

  /** Message `j` is message `i` or belongs to it. */
  ghost predicate Under(nodes: seq<Node>, i: nat, j: nat)
    requires Downward(nodes)
    decreases |nodes| - i
  {
    i == j || (i < |nodes| && exists k :: 0 <= k < |nodes[i].sub| && Under(nodes, nodes[i].sub[k].child, j))
  }

  /** What a message comes to depends only on itself and the messages under it. */
  lemma {:induction false} FinalDepends(nodes: seq<Node>, records: seq<seq<Record>>, records': seq<seq<Record>>, i: nat)
    requires |records| == |records'| == |nodes| && i < |nodes| && Downward(nodes) && FieldsOk(nodes)
    requires forall j :: 0 <= j < |nodes| && Under(nodes, i, j) ==> records[j] == records'[j]
    ensures FinalRecords(nodes, records, i) == FinalRecords(nodes, records', i)
    decreases |nodes| - i, 1, 0
  {
    SubsDepend(nodes, records, records', i, |nodes[i].sub|);
  }

  lemma {:induction false} SubsDepend(nodes: seq<Node>, records: seq<seq<Record>>, records': seq<seq<Record>>, i: nat,
                                      n: nat)
    requires |records| == |records'| == |nodes| && i < |nodes| && Downward(nodes) && FieldsOk(nodes)
    requires n <= |nodes[i].sub|
    requires forall j :: 0 <= j < |nodes| && Under(nodes, i, j) ==> records[j] == records'[j]
    ensures SubRecords(nodes, records, i, n) == SubRecords(nodes, records', i, n)
    decreases |nodes| - i, 0, n
  {
    if n > 0 {
      SubsDepend(nodes, records, records', i, n - 1);
      FinalDepends(nodes, records, records', nodes[i].sub[n - 1].child);
    }
  }

  lemma {:induction false} UnderIsBelow(nodes: seq<Node>, i: nat, j: nat)
    requires Downward(nodes) && Under(nodes, i, j)
    ensures i <= j
    decreases |nodes| - i
  {
    if i != j {
      var k :| 0 <= k < |nodes[i].sub| && Under(nodes, nodes[i].sub[k].child, j);
      UnderIsBelow(nodes, nodes[i].sub[k].child, j);
    }
  }

  /** The way down from a message ends in a step to a sub-message. */
  lemma {:induction false} LastStep(nodes: seq<Node>, i: nat, j: nat) returns (p: nat, m: nat)
    requires Downward(nodes) && Under(nodes, i, j) && i != j
    ensures p < |nodes| && m < |nodes[p].sub| && nodes[p].sub[m].child == j
    ensures Under(nodes, i, p)
    decreases |nodes| - i
  {
    var k: nat :| k < |nodes[i].sub| && Under(nodes, nodes[i].sub[k].child, j);
    var c := nodes[i].sub[k].child;
    if c == j {
      p, m := i, k;
    } else {
      p, m := LastStep(nodes, c, j);
    }
  }

  /** Nothing is under two different sub-messages of one message. */
  lemma {:induction false} SiblingsApart(nodes: seq<Node>, n: nat, k: nat, l: nat, j: nat)
    requires Downward(nodes) && OneParent(nodes) && n < |nodes| && k < |nodes[n].sub| && l < |nodes[n].sub| && k != l
    requires Under(nodes, nodes[n].sub[k].child, j)
    ensures !Under(nodes, nodes[n].sub[l].child, j)
    decreases j
  {
    var a, b := nodes[n].sub[k].child, nodes[n].sub[l].child;
    if Under(nodes, b, j) {
      if j == a {
        var p, m := LastStep(nodes, b, j);
        UnderIsBelow(nodes, b, p);
      } else if j == b {
        var p, m := LastStep(nodes, a, j);
        UnderIsBelow(nodes, a, p);
      } else {
        var p, m := LastStep(nodes, a, j);
        var q, o := LastStep(nodes, b, j);
        SiblingsApart(nodes, n, k, l, p);
      }
    }
  }

  lemma NotOverItself(nodes: seq<Node>, n: nat, k: nat)
    requires Downward(nodes) && n < |nodes| && k < |nodes[n].sub|
    ensures !Under(nodes, nodes[n].sub[k].child, n)
    ensures forall j :: Under(nodes, nodes[n].sub[k].child, j) ==> Under(nodes, n, j)
  {
    if Under(nodes, nodes[n].sub[k].child, n) { UnderIsBelow(nodes, nodes[n].sub[k].child, n); }
  }

  // ----- the messages of one heap ----------------------------------------------------------

  lemma AddedFrom(t: MessageType, was: seq<PackedField>, now: seq<PackedField>, f: Field, v: LongLong)
    requires t.Coherent() && f.name in t.names && t.names[f.name] == f && f.rule == Packed
    requires PackedAdded(was, now, f, v)
    requires forall k :: 0 <= k < |was| ==> PackedFrom(t, was[k])
    ensures forall k :: 0 <= k < |now| ==> PackedFrom(t, now[k])
  {
    if !exists k :: 0 <= k < |was| && was[k].key == f.name {
      forall k | 0 <= k < |now| ensures PackedFrom(t, now[k]) {
        assert now[k] in multiset(now);
        assert now[k] in was + [PackedField(f.name, f.id, f.ptype, [v])];
      }
    }
  }

  /** Lengths fit an int, and so do the packed fields. */
  ghost predicate Fits(nodes: seq<Node>, records: seq<seq<Record>>, i: nat)
    requires |records| == |nodes| && i < |nodes| && Downward(nodes) && FieldsOk(nodes)
    decreases |nodes| - i
  {
    && |Encode(FinalRecords(nodes, records, i))| < 0x8000_0000
    && (forall k :: 0 <= k < |nodes[i].packed| ==> PackedFits(nodes[i].packed[k].ptype, nodes[i].packed[k].data))
    && (forall k :: 0 <= k < |nodes[i].sub| ==> Fits(nodes, records, nodes[i].sub[k].child))
  }

  lemma {:induction false} FitsDepends(nodes: seq<Node>, records: seq<seq<Record>>, records': seq<seq<Record>>, i: nat)
    requires |records| == |records'| == |nodes| && i < |nodes| && Downward(nodes) && FieldsOk(nodes)
    requires forall j :: 0 <= j < |nodes| && Under(nodes, i, j) ==> records[j] == records'[j]
    requires Fits(nodes, records, i)
    ensures Fits(nodes, records', i)
    decreases |nodes| - i
  {
    FinalDepends(nodes, records, records', i);
    forall k | 0 <= k < |nodes[i].sub| ensures Fits(nodes, records', nodes[i].sub[k].child) {
      NotOverItself(nodes, i, k);
      FitsDepends(nodes, records, records', nodes[i].sub[k].child);
    }
  }

  /** Message `j` is under one of the first `n` sub-messages of message `i`. */
  ghost predicate UnderFirst(nodes: seq<Node>, i: nat, n: nat, j: nat)
    requires Downward(nodes) && i < |nodes| && n <= |nodes[i].sub|
  {
    exists k :: 0 <= k < n && Under(nodes, nodes[i].sub[k].child, j)
  }

  /** What the flush of the first `n` sub-messages may have changed leaves the next one alone. */
  lemma NextUntouched(nodes: seq<Node>, i: nat, n: nat, records: seq<seq<Record>>, records': seq<seq<Record>>)
    requires Downward(nodes) && OneParent(nodes) && FieldsOk(nodes) && i < |nodes| && n < |nodes[i].sub|
    requires |records| == |records'| == |nodes|
    requires forall j :: 0 <= j < |nodes| && j != i && !UnderFirst(nodes, i, n, j) ==> records'[j] == records[j]
    requires Fits(nodes, records, i)
    ensures var c := nodes[i].sub[n].child;
            Fits(nodes, records', c) && FinalRecords(nodes, records', c) == FinalRecords(nodes, records, c)
  {
    var c := nodes[i].sub[n].child;
    NotOverItself(nodes, i, n);
    forall j: nat | j < |nodes| && Under(nodes, c, j) ensures records'[j] == records[j] {
      forall k: nat | k < n ensures !Under(nodes, nodes[i].sub[k].child, j) { SiblingsApart(nodes, i, n, k, j); }
    }
    FinalDepends(nodes, records, records', c);
    FitsDepends(nodes, records, records', c);
  }

  /** What it takes to finish message `i`. */
  ghost predicate CanFinish(nodes: seq<Node>, records: seq<seq<Record>>, i: nat) {
    && i < |nodes| == |records| && Downward(nodes) && OneParent(nodes) && FieldsOk(nodes)
    && Fits(nodes, records, i)
  }

  lemma CanFinishFacts(nodes: seq<Node>, records: seq<seq<Record>>, i: nat)
    requires CanFinish(nodes, records, i)
    ensures i < |nodes| == |records| && Downward(nodes) && OneParent(nodes)
            && FieldsOk(nodes) && Fits(nodes, records, i)
    ensures forall p <- nodes[i].packed :: 0 < p.id < 0x1000_0000 && PackedFits(p.ptype, p.data)
    ensures forall s <- nodes[i].sub :: 0 < s.field.id < 0x1000_0000 && i < s.child < |nodes|
  {
  }

  lemma PackedFirst(start: seq<seq<Record>>, i: nat, packed: seq<PackedField>)
    requires i < |start|
    ensures start == start[i := start[i] + PackedRecords(packed[..0])]
  {
    assert start[i] + PackedRecords(packed[..0]) == start[i];
  }

  lemma PackedStep(start: seq<seq<Record>>, i: nat, packed: seq<PackedField>, k: nat)
    requires i < |start| && k < |packed| && forall p <- packed :: p.id >= 0
    ensures var now := start[i := start[i] + PackedRecords(packed[..k])];
            now[i := now[i] + [PackedRecord(packed[k])]] == start[i := start[i] + PackedRecords(packed[..k + 1])]
  {
    var a, b := PackedRecords(packed[..k]), [PackedRecord(packed[k])];
    assert PackedRecords(packed[..k + 1]) == a + b;
    assert (start[i] + a) + b == start[i] + (a + b);
  }

  /** Only message `i` and those under it have changed. */
  ghost predicate OnlyUnder(nodes: seq<Node>, start: seq<seq<Record>>, records: seq<seq<Record>>, i: nat)
    requires Downward(nodes) && |start| == |records| == |nodes|
  {
    forall j: nat {:trigger records[j]} :: j < |nodes| && !Under(nodes, i, j) ==> records[j] == start[j]
  }

  /** The state of the flush of message `i` when its packed fields and its first `k` sub-messages
      are done. */
  ghost predicate Flushed(nodes: seq<Node>, start: seq<seq<Record>>, records: seq<seq<Record>>, i: nat, k: nat)
    requires Downward(nodes) && FieldsOk(nodes) && |start| == |records| == |nodes| && i < |nodes|
    requires k <= |nodes[i].sub|
  {
    && records[i] == start[i] + PackedRecords(nodes[i].packed) + SubRecords(nodes, start, i, k)
    && forall j: nat {:trigger records[j]} ::
         j < |nodes| && j != i && !UnderFirst(nodes, i, k, j) ==> records[j] == start[j]
  }

  lemma FlushedFirst(nodes: seq<Node>, start: seq<seq<Record>>, records: seq<seq<Record>>, i: nat)
    requires Downward(nodes) && FieldsOk(nodes) && |start| == |records| == |nodes| && i < |nodes|
    requires records == start[i := start[i] + PackedRecords(nodes[i].packed)]
    ensures Flushed(nodes, start, records, i, 0)
  {
    assert records[i] + [] == records[i];
  }

  lemma FlushedNext(nodes: seq<Node>, start: seq<seq<Record>>, records: seq<seq<Record>>, i: nat, k: nat)
    requires CanFinish(nodes, start, i) && |records| == |nodes| && k < |nodes[i].sub|
    requires Flushed(nodes, start, records, i, k)
    ensures var c := nodes[i].sub[k].child;
            && i < c && CanFinish(nodes, records, c)
            && FinalRecords(nodes, records, c) == FinalRecords(nodes, start, c)
            && |Encode(FinalRecords(nodes, start, c))| < 0x8000_0000
            && 0 < nodes[i].sub[k].field.id < 0x1000_0000
  {
    NextUntouched(nodes, i, k, start, records);
    var c := nodes[i].sub[k].child;
    assert Fits(nodes, start, c);
  }

  lemma FlushedStep(nodes: seq<Node>, start: seq<seq<Record>>, before: seq<seq<Record>>, after: seq<seq<Record>>,
                    i: nat, k: nat)
    requires Downward(nodes) && FieldsOk(nodes) && |start| == |before| == |after| == |nodes| && i < |nodes|
    requires k < |nodes[i].sub|
    requires Flushed(nodes, start, before, i, k)
    requires OnlyUnder(nodes, before, after, nodes[i].sub[k].child)
    ensures var s := nodes[i].sub[k];
            var r := Record(s.field.id, Payload.Bytes(Encode(FinalRecords(nodes, start, s.child))));
            Flushed(nodes, start, after[i := after[i] + [r]], i, k + 1)
  {
    var s := nodes[i].sub[k];
    NotOverItself(nodes, i, k);
    hide FinalRecords;
    var r := Record(s.field.id, Payload.Bytes(Encode(FinalRecords(nodes, start, s.child))));
    var now := after[i := after[i] + [r]];
    var a, b := start[i] + PackedRecords(nodes[i].packed), SubRecords(nodes, start, i, k);
    assert after[i] == before[i] == a + b;
    assert (a + b) + [r] == a + (b + [r]);
    forall j: nat | j < |nodes| && j != i && !UnderFirst(nodes, i, k + 1, j) ensures now[j] == start[j] {
      assert !UnderFirst(nodes, i, k, j);
      assert after[j] == before[j];
    }
  }

  lemma FlushedAll(nodes: seq<Node>, start: seq<seq<Record>>, records: seq<seq<Record>>, i: nat)
    requires Downward(nodes) && FieldsOk(nodes) && |start| == |records| == |nodes| && i < |nodes|
    requires Flushed(nodes, start, records, i, |nodes[i].sub|)
    ensures records[i] == FinalRecords(nodes, start, i) && OnlyUnder(nodes, start, records, i)
  {
    forall j: nat | j < |nodes| && !Under(nodes, i, j) ensures records[j] == start[j] {
      assert !UnderFirst(nodes, i, |nodes[i].sub|, j);
    }
  }

  // ----- what every operation keeps ------------------------------------------------------------

  ghost predicate Shape(env: Env, nodes: seq<Node>, records: seq<seq<Record>>) {
    WellFormed(env) && Downward(nodes) && OneParent(nodes) && FieldsOk(nodes) && Typed(env, nodes, records)
  }

  lemma ShapeAppend(env: Env, nodes: seq<Node>, records: seq<seq<Record>>, i: nat, rs: seq<Record>)
    requires Shape(env, nodes, records) && i < |nodes|
    requires RecordsFrom(env[nodes[i].typeName], rs)
    ensures Shape(env, nodes, records[i := records[i] + rs])
  {
    hide Downward;
    hide OneParent;
    hide FieldsOk;
    hide NodeFrom;
    hide RecordFrom;
    hide WellFormed;
  }

  /** `now` holds the packed fields of message `i` with one more number. */
  lemma ShapePacked(env: Env, nodes: seq<Node>, records: seq<seq<Record>>, i: nat,
                    now: seq<PackedField>, f: Field, v: LongLong)
    requires Shape(env, nodes, records) && i < |nodes|
    requires f.name in env[nodes[i].typeName].names && env[nodes[i].typeName].names[f.name] == f && f.rule == Packed
    requires KeysDistinct(now) && PackedAdded(nodes[i].packed, now, f, v)
    ensures Shape(env, nodes[i := nodes[i].(packed := now)], records)
  {
    var t := env[nodes[i].typeName];
    AddedFrom(t, nodes[i].packed, now, f, v);
    var nodes' := nodes[i := nodes[i].(packed := now)];
    assert forall j :: 0 <= j < |nodes| ==> nodes'[j].sub == nodes[j].sub && nodes'[j].typeName == nodes[j].typeName;
    assert WellFormed(env) && FieldsOk(nodes);
    SameTree(nodes, nodes');
    hide PackedAdded;
    hide RecordFrom;
    hide Downward;
    hide OneParent;
    hide WellFormed;
    PackedOk(env, nodes[i].typeName, now);
    assert FieldsOk(nodes');
    hide FieldsOk;
    forall j | 0 <= j < |nodes'| ensures NodeFrom(env, nodes', nodes'[j]) { assert NodeFrom(env, nodes, nodes[j]); }
  }

  lemma SameTree(nodes: seq<Node>, nodes': seq<Node>)
    requires Downward(nodes) && OneParent(nodes) && |nodes'| == |nodes|
    requires forall j :: 0 <= j < |nodes| ==> nodes'[j].sub == nodes[j].sub
    ensures Downward(nodes') && OneParent(nodes')
  {
  }

  lemma PackedOk(env: Env, typeName: string, packed: seq<PackedField>)
    requires WellFormed(env) && typeName in env
    requires forall k :: 0 <= k < |packed| ==> PackedFrom(env[typeName], packed[k])
    ensures forall k :: 0 <= k < |packed| ==> 0 < packed[k].id < 0x1000_0000
  {
  }

  lemma NumberFrom(t: MessageType, f: Field, v: LongLong, asDouble: bool)
    requires t.Coherent() && f.name in t.names && t.names[f.name] == f && f.rule != Packed && 0 < f.id < 0x1000_0000
    ensures RecordsFrom(t, NumberRecords(f, v, asDouble))
  {
  }

  /** The type of a field with a known name. */
  lemma KnownField(env: Env, nodes: seq<Node>, records: seq<seq<Record>>, i: nat, key: string)
    requires Shape(env, nodes, records) && i < |nodes| && key in env[nodes[i].typeName].names
    ensures var f := env[nodes[i].typeName].names[key];
            f.name == key && 0 < f.id < 0x1000_0000 && env[nodes[i].typeName].Coherent()
  {
  }

  lemma ShapeFacts(env: Env, nodes: seq<Node>, records: seq<seq<Record>>, i: nat)
    requires Shape(env, nodes, records) && i < |nodes|
    ensures |records| == |nodes| && nodes[i].typeName in env && KeysDistinct(nodes[i].packed)
  {
  }

  lemma TextFrom(t: MessageType, f: Field, v: seq<byte>, len: nat)
    requires t.Coherent() && f.name in t.names && t.names[f.name] == f && f.rule != Packed && 0 < f.id < 0x1000_0000
    requires len <= |v| && len < 0x8000_0000
    ensures RecordsFrom(t, TextRecords(f, v, len))
  {
  }

  function WithChild(nodes: seq<Node>, i: nat, f: Field): seq<Node>
    requires i < |nodes|
  {
    nodes[i := nodes[i].(sub := nodes[i].sub + [Sub(f, |nodes|)])] + [Node(f.typeName, [], [])]
  }

  lemma WithChildTree(nodes: seq<Node>, i: nat, f: Field)
    requires Downward(nodes) && OneParent(nodes) && FieldsOk(nodes) && i < |nodes| && 0 < f.id < 0x1000_0000
    ensures Downward(WithChild(nodes, i, f)) && OneParent(WithChild(nodes, i, f)) && FieldsOk(WithChild(nodes, i, f))
  {
    WithChildEntries(nodes, i, f);
    hide WithChild;
    ChildDownward(nodes, WithChild(nodes, i, f), i, f);
    ChildOneParent(nodes, WithChild(nodes, i, f), i, f);
    hide Downward;
    hide OneParent;
    assert FieldsOk(WithChild(nodes, i, f));
  }

  /** The entries of sub-messages are those before and one more. */
  ghost predicate OneEntryMore(nodes: seq<Node>, nodes': seq<Node>, i: nat, f: Field) {
    && |nodes'| == |nodes| + 1
    && forall j, k {:trigger nodes'[j].sub[k]} :: 0 <= j < |nodes'| && 0 <= k < |nodes'[j].sub| ==>
         if j < |nodes| && k < |nodes[j].sub| then nodes'[j].sub[k] == nodes[j].sub[k]
         else j == i < |nodes| && k == |nodes[i].sub| && nodes'[j].sub[k] == Sub(f, |nodes|)
  }

  lemma WithChildEntries(nodes: seq<Node>, i: nat, f: Field)
    requires i < |nodes|
    ensures OneEntryMore(nodes, WithChild(nodes, i, f), i, f)
    ensures forall j :: 0 <= j < |nodes| ==> WithChild(nodes, i, f)[j].packed == nodes[j].packed
    ensures WithChild(nodes, i, f)[|nodes|].packed == []
  {
  }

  lemma ChildDownward(nodes: seq<Node>, nodes': seq<Node>, i: nat, f: Field)
    requires Downward(nodes) && i < |nodes| && OneEntryMore(nodes, nodes', i, f)
    ensures Downward(nodes')
  {
  }

  lemma ChildOneParent(nodes: seq<Node>, nodes': seq<Node>, i: nat, f: Field)
    requires Downward(nodes) && OneParent(nodes) && i < |nodes| && OneEntryMore(nodes, nodes', i, f)
    ensures OneParent(nodes')
  {
  }

  lemma ShapeChild(env: Env, nodes: seq<Node>, records: seq<seq<Record>>, i: nat, f: Field)
    requires Shape(env, nodes, records) && i < |nodes|
    requires f.name in env[nodes[i].typeName].names && env[nodes[i].typeName].names[f.name] == f
    requires f.ptype == Message && f.rule != Packed
    ensures Shape(env, WithChild(nodes, i, f), records + [[]])
  {
    KnownField(env, nodes, records, i, f.name);
    WithChildTree(nodes, i, f);
    hide Downward;
    hide OneParent;
    hide FieldsOk;
    hide RecordFrom;
    var nodes' := WithChild(nodes, i, f);
    forall j | 0 <= j < |nodes'| ensures NodeFrom(env, nodes', nodes'[j]) {
      if j < |nodes| { assert NodeFrom(env, nodes, nodes[j]); }
    }
  }

  /** What `pbc_wmessage_string` does to the messages: nothing comes of a string for a packed field, unless it
      is the name of an enum. */
  ghost predicate TextWritten(env: Env, nodes: seq<Node>, records: seq<seq<Record>>,
                              nodes': seq<Node>, records': seq<seq<Record>>,
                              i: nat, key: string, v: seq<byte>, len: nat, r: int)
    requires Shape(env, nodes, records) && i < |nodes| == |nodes'|
    requires key in env[nodes[i].typeName].names ==> len <= |v|
  {
    var names := env[nodes[i].typeName].names;
    if key !in names then r == -1 && nodes' == nodes && records' == records
    else
      var f := names[key];
      KnownField(env, nodes, records, i, key);
      && r == (if NoSuchName(f, v, len) then -1 else 0)
      && if f.rule == Packed && f.ptype == Enum && NameNumber(f, v, len).Some? then
           && records' == records
           && PackedAdded(nodes[i].packed, nodes'[i].packed, f, NameNumber(f, v, len).value)
           && nodes' == nodes[i := nodes[i].(packed := nodes'[i].packed)]
         else
           && nodes' == nodes
           && records' == if f.rule == Packed then records else records[i := records[i] + TextRecords(f, v, len)]
  }

  /** What `pbc_wmessage_integer` and `pbc_wmessage_real` do to the messages. */
  ghost predicate NumberWritten(env: Env, nodes: seq<Node>, records: seq<seq<Record>>,
                                nodes': seq<Node>, records': seq<seq<Record>>,
                                i: nat, key: string, v: LongLong, asDouble: bool, r: int)
    requires Shape(env, nodes, records) && i < |nodes| == |nodes'|
  {
    var names := env[nodes[i].typeName].names;
    if key !in names then r == -1 && nodes' == nodes && records' == records
    else
      var f := names[key];
      KnownField(env, nodes, records, i, key);
      if f.rule == Packed then
        && r == 0 && records' == records
        && PackedAdded(nodes[i].packed, nodes'[i].packed, f, v)
        && nodes' == nodes[i := nodes[i].(packed := nodes'[i].packed)]
      else
        r == 0 && nodes' == nodes && records' == records[i := records[i] + NumberRecords(f, v, asDouble)]
  }

  lemma WrittenCases(env: Env, nodes: seq<Node>, records: seq<seq<Record>>, i: nat, key: string, v: LongLong,
                     asDouble: bool)
    requires Shape(env, nodes, records) && i < |nodes| && nodes[i].typeName in env
    ensures key !in env[nodes[i].typeName].names ==>
              NumberWritten(env, nodes, records, nodes, records, i, key, v, asDouble, -1)
    ensures key in env[nodes[i].typeName].names ==>
              var f := env[nodes[i].typeName].names[key];
              && f.id >= 0
              && (f.rule == Packed ==>
                    forall packed {:trigger PackedAdded(nodes[i].packed, packed, f, v)} ::
                      PackedAdded(nodes[i].packed, packed, f, v) ==>
                        NumberWritten(env, nodes, records,
                          nodes[i := nodes[i].(packed := packed)], records, i, key, v, asDouble, 0))
              && (f.rule != Packed && i < |records| ==>
                    NumberWritten(env, nodes, records, nodes,
                      records[i := records[i] + NumberRecords(f, v, asDouble)], i, key, v, asDouble, 0))
  {
    if key in env[nodes[i].typeName].names { KnownField(env, nodes, records, i, key); }
    hide Shape;
    hide PackedAdded;
    hide NumberRecords;
  }

  lemma NothingElided(f: Field, v: LongLong, asDouble: bool, rs: seq<Record>)
    requires f.id >= 0 && Elided(f, v, asDouble)
    ensures rs + NumberRecords(f, v, asDouble) == rs
  {
  }

  lemma LengthIs(v: seq<byte>, len: int)
    ensures TextLength(v, len) == if len <= 0 then |CString(v)| - len else len
  {
  }

  lemma ReadableIs(f: Field, v: seq<byte>, len: int)
    requires TextReadable(f, v, len)
    ensures TextLength(v, len) <= |v| && TextLength(v, len) < 0x8000_0000
  {
    hide CString;
  }

  lemma TextCases(env: Env, nodes: seq<Node>, records: seq<seq<Record>>, i: nat, key: string, v: seq<byte>, len: nat)
    requires Shape(env, nodes, records) && i < |nodes| && nodes[i].typeName in env
    requires key in env[nodes[i].typeName].names ==> len <= |v|
    ensures key !in env[nodes[i].typeName].names ==>
              TextWritten(env, nodes, records, nodes, records, i, key, v, len, -1)
    ensures key in env[nodes[i].typeName].names ==>
              var f := env[nodes[i].typeName].names[key];
              && f.id >= 0
              && (f.rule == Packed && f.ptype != Enum ==>
                    TextWritten(env, nodes, records, nodes, records, i, key, v, len, 0))
              && (f.rule != Packed && f.ptype != Enum && i < |records| ==>
                    TextWritten(env, nodes, records, nodes,
                      records[i := records[i] + TextRecords(f, v, len)], i, key, v, len, 0))
  {
    if key in env[nodes[i].typeName].names { KnownField(env, nodes, records, i, key); }
    hide Shape;
    hide TextRecords;
    hide NameNumber;
  }

  /** The same for an enum. */
  lemma NameCases(env: Env, nodes: seq<Node>, records: seq<seq<Record>>, i: nat, key: string, v: seq<byte>, len: nat)
    requires Shape(env, nodes, records) && i < |nodes| == |records| && nodes[i].typeName in env
    requires key in env[nodes[i].typeName].names && env[nodes[i].typeName].names[key].ptype == Enum && len <= |v|
    ensures var f, x := env[nodes[i].typeName].names[key], NameNumber(env[nodes[i].typeName].names[key], v, len);
            && f.id >= 0
            && (f.rule != Packed && ElidedText(f, v, len) ==>
                  TextWritten(env, nodes, records, nodes, records, i, key, v, len, 0))
            && (x.None? && (f.rule == Packed || !ElidedText(f, v, len)) ==>
                  TextWritten(env, nodes, records, nodes, records, i, key, v, len, -1))
            && (x.Some? && f.rule == Packed ==>
                  forall packed {:trigger PackedAdded(nodes[i].packed, packed, f, x.value)} ::
                    PackedAdded(nodes[i].packed, packed, f, x.value) ==>
                      TextWritten(env, nodes, records,
                        nodes[i := nodes[i].(packed := packed)], records, i, key, v, len, 0))
            && (x.Some? && f.rule != Packed && !ElidedText(f, v, len) ==>
                  TextWritten(env, nodes, records, nodes,
                    records[i := records[i] + [Record(f.id, VarintValue(x.value.low))]], i, key, v, len, 0))
  {
    KnownField(env, nodes, records, i, key);
    hide Shape;
    hide NameNumber;
    hide PackedAdded;
    assert records[i] + [] == records[i] && records[i := records[i]] == records;
  }

  lemma TextIs(f: Field, v: seq<byte>, n: nat, rs: seq<Record>)
    requires f.id >= 0 && n <= |v| && f.ptype != Enum
    ensures if ElidedText(f, v, n) || f.ptype !in {String, PType.Bytes} then rs + TextRecords(f, v, n) == rs
            else TextRecords(f, v, n) == [Record(f.id, Payload.Bytes(v[..n]))]
  {
    hide ElidedText;
  }

  ghost predicate Holds(w: Writer, rs: seq<Record>)
    reads w, w.buffer
  {
    w.Sound() && AllValid(rs) && w.Written() == Encode(rs)
  }

  method HoldNumber(w: Writer, ghost rs: seq<Record>, f: Field, v: LongLong, asDouble: bool)
    requires Holds(w, rs) && 0 < f.id < 0x1000_0000 && !Elided(f, v, asDouble)
    modifies w, w.buffer
    ensures Holds(w, rs + NumberRecords(f, v, asDouble)) && (w.buffer == old(w.buffer) || fresh(w.buffer))
  {
    hide RecordBytes;
    PlainPayload(f.ptype, v, asDouble);
    hide WrittenPayload;
    if asDouble {
      w.PutReal(f.id, f.ptype, v);
    } else {
      w.PutNumber(f.id, f.ptype, v);
    }
    HoldOne(rs, NumberRecords(f, v, asDouble));
  }

  lemma PlainPayload(ptype: PType, v: LongLong, asDouble: bool)
    ensures !asDouble ==> WrittenPayload(ptype, v, asDouble) == NumberPayload(ptype, v)
    ensures match WrittenPayload(ptype, v, asDouble) case None => true case Some(p) => !p.Bytes?
  {
    hide Narrow;
    hide Join;
  }

  method HoldText(w: Writer, ghost rs: seq<Record>, id: nat, text: seq<byte>)
    requires Holds(w, rs) && 0 < id < 0x1000_0000 && |text| < 0x8000_0000
    modifies w, w.buffer
    ensures Holds(w, rs + [Record(id, Payload.Bytes(text))]) && (w.buffer == old(w.buffer) || fresh(w.buffer))
  {
    hide RecordBytes;
    w.PutText(id, text);
    HoldOne(rs, [Record(id, Payload.Bytes(text))]);
  }

  /** The number of a name. */
  method HoldName(w: Writer, ghost rs: seq<Record>, id: nat, x: LongLong)
    requires Holds(w, rs) && 0 < id < 0x1000_0000
    modifies w, w.buffer
    ensures Holds(w, rs + [Record(id, VarintValue(x.low))]) && (w.buffer == old(w.buffer) || fresh(w.buffer))
  {
    hide RecordBytes;
    w.PutNumber(id, Enum, x);
    HoldOne(rs, [Record(id, VarintValue(x.low))]);
  }

  method HoldSub(w: Writer, ghost rs: seq<Record>, id: nat, bytes: seq<byte>)
    requires Holds(w, rs) && 0 < id < 0x1000_0000 && |bytes| < 0x8000_0000
    modifies w, w.buffer
    ensures Holds(w, rs + [Record(id, Payload.Bytes(bytes))]) && (w.buffer == old(w.buffer) || fresh(w.buffer))
  {
    hide RecordBytes;
    w.PutSub(id, bytes);
    HoldOne(rs, [Record(id, Payload.Bytes(bytes))]);
  }

  method HoldPacked(w: Writer, ghost rs: seq<Record>, p: PackedField)
    requires Holds(w, rs) && 0 < p.id < 0x1000_0000 && PackedFits(p.ptype, p.data)
    modifies w, w.buffer
    ensures Holds(w, rs + [PackedRecord(p)]) && (w.buffer == old(w.buffer) || fresh(w.buffer))
  {
    hide RecordBytes;
    hide PackedPayload;
    w.PutPacked(p.id, p.ptype, p.data);
    PackedSize(p.ptype, p.data);
    HoldOne(rs, [PackedRecord(p)]);
  }

  lemma PackedSize(ptype: PType, data: seq<LongLong>)
    requires PackedFits(ptype, data)
    ensures |PackedPayload(ptype, data)| < 0x8000_0000
  {
    PayloadWidth(ptype, data);
  }

  lemma HoldOne(rs: seq<Record>, more: seq<Record>)
    requires |more| <= 1
    ensures Encode(rs + more) == Encode(rs) + if more == [] then [] else RecordBytes(more[0])
  {
    hide RecordBytes;
    EncodeConcat(rs, more);
    if |more| == 1 { assert more[1..] == []; }
  }

  /** All writers, and their buffers, are different objects. */
  ghost predicate Apart(writers: seq<Writer>)
    reads writers
  {
    forall i, j :: 0 <= i < |writers| && 0 <= j < |writers| && i != j ==>
      writers[i] != writers[j] && writers[i].buffer != writers[j].buffer
  }

  /** `pbc_wmessage_new` */
  method NewMessage(env: Env, msgs: StringMaps.StringMap<string>, typeName: string, calcHash: string -> nat)
    returns (m: MessageTree?)
    requires WellFormed(env) && TypesOf(msgs, env) && msgs.CanAsk(typeName)
    ensures typeName !in env ==> m == null
    ensures typeName in env ==>
              && m != null && m.Valid() && m.env == env && fresh(m)
              && m.nodes == [Node(typeName, [], [])] && m.records == [[]]
              && fresh(m.memory) && forall w <- m.writers :: fresh(w) && fresh(w.buffer)
  {
    hide WellFormed;
    hide TypesOf;
    var found := GetMessage(msgs, env, typeName);
    if !found { return null; }
    m := new MessageTree(env, typeName, calcHash);
  }

  /** The enum that an enum field points to. */
  ghost predicate HasEnum(e: EnumType?, f: Field)
    reads e, if e == null then {} else {e.id, e.id.direct, e.id.hash, e.name, e.name.slot},
          if e == null || e.id.hash == null then {} else {e.id.hash.slot}
  {
    f.ptype == Enum ==> e != null && e.Valid() && e.Answers(f.values)
  }

  /** `_pbcM_si_query`, asked for the name. */
  method NumberOf(e: EnumType?, f: Field, v: seq<byte>, n: nat) returns (x: Option<LongLong>)
    requires f.ptype == Enum && HasEnum(e, f) && n <= |v|
    ensures x == NameNumber(f, v, n)
  {
    hide EnumType.Valid;
    e.AnswersIs(f.values);
    var id := e.IdOf(Chars(CString(v[..n])));
    x := match id case None => None case Some(k) => Some(LongLong(Unsigned32(k), 0));
  }

  lemma NameFrom(t: MessageType, f: Field, x: LongLong)
    requires t.Coherent() && f.name in t.names && t.names[f.name] == f && f.rule != Packed && 0 < f.id < 0x1000_0000
    requires f.ptype == Enum
    ensures RecordsFrom(t, [Record(f.id, VarintValue(x.low))])
  {
  }

  /** The rest of the messages with one more. */
  lemma HeadsMore(nodes: seq<Node>, heads: seq<Head>, i: nat, f: Field)
    requires i < |nodes| == |heads|
    requires forall j :: 0 <= j < |nodes| ==> heads[j] == Head(nodes[j].typeName, nodes[j].sub)
    ensures var nodes', heads' := WithChild(nodes, i, f),
              heads[i := heads[i].(sub := heads[i].sub + [Sub(f, |heads|)])] + [Head(f.typeName, [])];
            && |heads'| == |nodes'|
            && forall j :: 0 <= j < |nodes'| ==> heads'[j] == Head(nodes'[j].typeName, nodes'[j].sub)
    ensures PackedOf(WithChild(nodes, i, f)) == PackedOf(nodes) + [[]]
  {
  }

  class MessageTree {
    const env: Env
    const calcHash: string -> nat
    /** The byte buffer of each message, its table of packed fields, if it has one, and the rest of it. */
    var writers: seq<Writer>
    var tables: seq<PackedTables.PackedTable?>
    var heads: seq<Head>
    ghost var nodes: seq<Node>
    ghost var records: seq<seq<Record>>
    /** The tables in memory. */
    ghost var memory: set<object>

    ghost predicate Buffers()
      reads this`writers, this`records, writers, set w <- writers :: w.buffer
    {
      && |writers| == |records| && Apart(writers)
      && (forall i {:trigger writers[i]} :: 0 <= i < |writers| ==> Holds(writers[i], records[i]))
    }

    /** The tables and the rest are those of the messages, and apart from the buffers. */
    ghost predicate Linked()
      reads this, memory, writers
    {
      && this !in memory && (forall w <- writers :: w !in memory && w.buffer !in memory)
      && PackedTables.Tables(tables, PackedOf(nodes), memory)
      && |heads| == |nodes| && forall i :: 0 <= i < |nodes| ==> heads[i] == Head(nodes[i].typeName, nodes[i].sub)
    }

    ghost predicate Valid()
      reads this, memory, writers, set w <- writers :: w.buffer
    {
      Shape(env, nodes, records) && Buffers() && Linked()
    }

    /** `pbc_wmessage_new`: message 0 of a new heap. */
    constructor (env: Env, typeName: string, calcHash: string -> nat)
      requires WellFormed(env) && typeName in env
      ensures Valid() && this.env == env && this.calcHash == calcHash
      ensures memory == {} && fresh(writers) && (forall w <- writers :: fresh(w.buffer))
      ensures nodes == [Node(typeName, [], [])] && records == [[]]
    {
      hide WellFormed;
      this.env, this.calcHash := env, calcHash;
      var w := new Writer();
      writers, nodes, records := [w], [Node(typeName, [], [])], [[]];
      tables, heads, memory := [null], [Head(typeName, [])], {};
    }

    /** `pbc_wmessage_integer`; `names` is `m->type->name`. */
    method Integer(i: nat, key: string, v: LongLong, names: StringMaps.StringMap<Field>) returns (r: int)
      requires Valid() && i < |nodes|
      requires FieldsOf(names, env[nodes[i].typeName]) && names.CanAsk(key)
      modifies this`nodes, this`tables, this`memory, memory, this`records, writers[i], writers[i].buffer
      ensures Valid() && writers == old(writers) && |nodes| == |old(nodes)| && fresh(memory - old(memory))
      ensures writers[i].buffer == old(writers[i].buffer) || fresh(writers[i].buffer)
      ensures NumberWritten(env, old(nodes), old(records), nodes, records, i, key, v, false, r)
    {
      r := Number(i, key, v, false, names);
    }

    /** `pbc_wmessage_real`; `v` are the words of a double. */
    method Real(i: nat, key: string, v: LongLong, names: StringMaps.StringMap<Field>) returns (r: int)
      requires Valid() && i < |nodes|
      requires FieldsOf(names, env[nodes[i].typeName]) && names.CanAsk(key)
      modifies this`nodes, this`tables, this`memory, memory, this`records, writers[i], writers[i].buffer
      ensures Valid() && writers == old(writers) && |nodes| == |old(nodes)| && fresh(memory - old(memory))
      ensures writers[i].buffer == old(writers[i].buffer) || fresh(writers[i].buffer)
      ensures NumberWritten(env, old(nodes), old(records), nodes, records, i, key, v, true, r)
    {
      r := Number(i, key, v, true, names);
    }

    /** What the two have in common. */
    method Number(i: nat, key: string, v: LongLong, asDouble: bool, names: StringMaps.StringMap<Field>) returns (r: int)
      requires Valid() && i < |nodes|
      requires FieldsOf(names, env[nodes[i].typeName]) && names.CanAsk(key)
      modifies this`nodes, this`tables, this`memory, memory, this`records, writers[i], writers[i].buffer
      ensures Valid() && writers == old(writers) && |nodes| == |old(nodes)| && fresh(memory - old(memory))
      ensures writers[i].buffer == old(writers[i].buffer) || fresh(writers[i].buffer)
      ensures NumberWritten(env, old(nodes), old(records), nodes, records, i, key, v, asDouble, r)
    {
      hide *;
      ValidParts(i);
      LinkedIs();
      WrittenCases(env, nodes, records, i, key, v, asDouble);
      var p := FindField(names, env[nodes[i].typeName], key);
      if p == None { return -1; }
      var f := p.value;
      KnownField(env, nodes, records, i, key);
      if f.rule == Packed {
        PushPacked(i, key, f, v, asDouble);
        return 0;
      }
      NumberFrom(env[nodes[i].typeName], f, v, asDouble);
      ShapeAppend(env, nodes, records, i, NumberRecords(f, v, asDouble));
      if Elided(f, v, asDouble) {
        NothingElided(f, v, asDouble, records[i]);
        assert records[i := records[i]] == records;
        return 0;
      }
      WriteNumber(i, f, v, asDouble);
      BecomesValid();
      return 0;
    }

    /** The number joins those of its packed field. */
    method PushPacked(i: nat, key: string, f: Field, v: LongLong, asDouble: bool)
      requires Valid() && i < |nodes| && nodes[i].typeName in env && key in env[nodes[i].typeName].names
      requires f == env[nodes[i].typeName].names[key] && f.rule == Packed
      modifies this`nodes, this`tables, this`memory, memory
      ensures Valid() && |nodes| == |old(nodes)| && fresh(memory - old(memory))
      ensures NumberWritten(env, old(nodes), records, nodes, records, i, key, v, asDouble, 0)
    {
      hide *;
      ValidParts(i);
      LinkedIs();
      WrittenCases(env, nodes, records, i, key, v, asDouble);
      KnownField(env, nodes, records, i, key);
      PackNumber(i, f, v);
    }

    /** `_packed_integer` and `_packed_real` */
    method PackNumber(i: nat, f: Field, v: LongLong)
      requires Valid() && i < |nodes| && nodes[i].typeName in env && f.name in env[nodes[i].typeName].names
      requires f == env[nodes[i].typeName].names[f.name] && f.rule == Packed
      modifies this`nodes, this`tables, this`memory, memory
      ensures Valid() && |nodes| == |old(nodes)| && fresh(memory - old(memory))
      ensures PackedAdded(old(nodes)[i].packed, nodes[i].packed, f, v)
      ensures nodes == old(nodes)[i := old(nodes)[i].(packed := nodes[i].packed)]
    {
      hide *;
      ValidParts(i);
      LinkedIs();
      ghost var was, n := PackedOf(nodes), nodes[i];
      ghost var packed;
      tables, packed, memory := PackedTables.AddNumber(calcHash, tables, was, memory, i, f, v);
      ShapePacked(env, nodes, records, i, packed, f, v);
      nodes := nodes[i := n.(packed := packed)];
      assert PackedOf(nodes) == was[i := packed];
      LinkedIs();
      BecomesValid();
    }

    lemma ValidParts(i: nat)
      requires Valid() && i < |nodes|
      ensures Shape(env, nodes, records) && Buffers() && Linked() && |writers| == |records| == |nodes|
      ensures nodes[i].typeName in env && KeysDistinct(nodes[i].packed)
    {
      ShapeFacts(env, nodes, records, i);
      hide Shape;
      hide Linked;
    }

    lemma BecomesValid()
      requires Shape(env, nodes, records) && Buffers() && Linked()
      ensures Valid()
    {
    }

    lemma LinkedIs()
      ensures Linked() ==> |tables| == |nodes|
      ensures Linked() <==>
                && this !in memory && (forall w <- writers :: w !in memory && w.buffer !in memory)
                && PackedTables.Tables(tables, PackedOf(nodes), memory)
                && |heads| == |nodes|
                   && forall i :: 0 <= i < |nodes| ==> heads[i] == Head(nodes[i].typeName, nodes[i].sub)
    {
      if Linked() { PackedTables.TableEach(tables, PackedOf(nodes), memory); }
      hide PackedTables.Tables;
    }

    method WriteNumber(i: nat, f: Field, v: LongLong, asDouble: bool)
      requires Buffers() && Linked() && i < |writers| && 0 < f.id < 0x1000_0000 && !Elided(f, v, asDouble)
      modifies this`records, writers[i], writers[i].buffer
      ensures Buffers() && Linked() && records == old(records)[i := old(records)[i] + NumberRecords(f, v, asDouble)]
      ensures writers[i].buffer == old(writers[i].buffer) || fresh(writers[i].buffer)
    {
      LinkedIs();
      hide Holds;
      HoldNumber(writers[i], records[i], f, v, asDouble);
      records := records[i := records[i] + NumberRecords(f, v, asDouble)];
      LinkedIs();
    }

    /** `pbc_wmessage_string`: a string cannot be written to a packed field, unless it is the name of an enum.
        `e` is the enum that the field points to. */
    method Text(i: nat, key: string, v: seq<byte>, len: int, names: StringMaps.StringMap<Field>, e: EnumType?)
      returns (r: int)
      requires Valid() && i < |nodes|
      requires FieldsOf(names, env[nodes[i].typeName]) && names.CanAsk(key)
      requires var fields := env[nodes[i].typeName].names;
               key in fields ==> TextReadable(fields[key], v, len) && HasEnum(e, fields[key])
      modifies this`nodes, this`tables, this`memory, memory, this`records, writers[i], writers[i].buffer
      ensures Valid() && writers == old(writers) && |nodes| == |old(nodes)| && fresh(memory - old(memory))
      ensures writers[i].buffer == old(writers[i].buffer) || fresh(writers[i].buffer)
      ensures TextWritten(env, old(nodes), old(records), nodes, records, i, key, v, TextLength(v, len), r)
    {
      hide *;
      ValidParts(i);
      LinkedIs();
      LengthIs(v, len);
      var p := FindField(names, env[nodes[i].typeName], key);
      if p == None {
        TextCases(env, nodes, records, i, key, v, TextLength(v, len));
        return -1;
      }
      var f := p.value;
      ReadableIs(f, v, len);
      var n := if len <= 0 then |CString(v)| - len else len;
      if f.ptype == Enum {
        r := Name(i, key, f, v, n, e);
      } else {
        Plain(i, key, f, v, n);
        r := 0;
      }
    }

    /** The same for a known field that is no enum. */
    method Plain(i: nat, key: string, f: Field, v: seq<byte>, n: nat)
      requires Valid() && i < |nodes| && nodes[i].typeName in env && key in env[nodes[i].typeName].names
      requires f == env[nodes[i].typeName].names[key] && f.ptype != Enum && n <= |v| && n < 0x8000_0000
      modifies this`records, writers[i], writers[i].buffer
      ensures Valid() && |writers| == |nodes|
      ensures writers[i].buffer == old(writers[i].buffer) || fresh(writers[i].buffer)
      ensures TextWritten(env, nodes, old(records), nodes, records, i, key, v, n, 0)
    {
      hide *;
      ValidParts(i);
      KnownField(env, nodes, records, i, key);
      TextCases(env, nodes, records, i, key, v, n);
      if f.rule == Packed { return; }
      TextFrom(env[nodes[i].typeName], f, v, n);
      ShapeAppend(env, nodes, records, i, TextRecords(f, v, n));
      TextIs(f, v, n, records[i]);
      if ElidedText(f, v, n) || f.ptype !in {String, PType.Bytes} {
        assert records[i := records[i]] == records;
        return;
      }
      WriteText(i, f.id, v[..n]);
      BecomesValid();
    }

    /** The same for the name of an enum. */
    method Name(i: nat, key: string, f: Field, v: seq<byte>, n: nat, e: EnumType?) returns (r: int)
      requires Valid() && i < |nodes| && nodes[i].typeName in env && key in env[nodes[i].typeName].names
      requires f == env[nodes[i].typeName].names[key] && f.ptype == Enum && n <= |v| && HasEnum(e, f)
      modifies this`nodes, this`tables, this`memory, memory, this`records, writers[i], writers[i].buffer
      ensures Valid() && writers == old(writers) && |nodes| == |old(nodes)| && fresh(memory - old(memory))
      ensures writers[i].buffer == old(writers[i].buffer) || fresh(writers[i].buffer)
      ensures TextWritten(env, old(nodes), old(records), nodes, records, i, key, v, n, r)
    {
      hide *;
      ValidParts(i);
      LinkedIs();
      KnownField(env, nodes, records, i, key);
      NameCases(env, nodes, records, i, key, v, n);
      if f.rule != Packed && ElidedText(f, v, n) { return 0; }
      var x := NumberOf(e, f, v, n);
      if x == None { return -1; }
      if f.rule == Packed {
        PackNumber(i, f, x.value);
        return 0;
      }
      NameFrom(env[nodes[i].typeName], f, x.value);
      ShapeAppend(env, nodes, records, i, [Record(f.id, VarintValue(x.value.low))]);
      WriteName(i, f.id, x.value);
      BecomesValid();
      return 0;
    }

    method WriteName(i: nat, id: nat, x: LongLong)
      requires Buffers() && Linked() && i < |writers| && 0 < id < 0x1000_0000
      modifies this`records, writers[i], writers[i].buffer
      ensures Buffers() && Linked() && records == old(records)[i := old(records)[i] + [Record(id, VarintValue(x.low))]]
      ensures writers[i].buffer == old(writers[i].buffer) || fresh(writers[i].buffer)
    {
      LinkedIs();
      hide Holds;
      HoldName(writers[i], records[i], id, x);
      records := records[i := records[i] + [Record(id, VarintValue(x.low))]];
      LinkedIs();
    }

    method WriteText(i: nat, id: nat, text: seq<byte>)
      requires Buffers() && Linked() && i < |writers| && 0 < id < 0x1000_0000 && |text| < 0x8000_0000
      modifies this`records, writers[i], writers[i].buffer
      ensures Buffers() && Linked() && records == old(records)[i := old(records)[i] + [Record(id, Payload.Bytes(text))]]
      ensures writers[i].buffer == old(writers[i].buffer) || fresh(writers[i].buffer)
    {
      LinkedIs();
      hide Holds;
      HoldText(writers[i], records[i], id, text);
      records := records[i := records[i] + [Record(id, Payload.Bytes(text))]];
      LinkedIs();
    }

    /** `pbc_wmessage_message`: a new, empty message that belongs to message `i`. */
    method SubMessage(i: nat, key: string, names: StringMaps.StringMap<Field>) returns (child: Option<nat>)
      requires Valid() && i < |nodes|
      requires FieldsOf(names, env[nodes[i].typeName]) && names.CanAsk(key)
      requires var fields := env[nodes[i].typeName].names;
               key in fields ==> fields[key].ptype == Message && fields[key].rule != Packed
      modifies this`nodes, this`heads, this`tables, this`records, this`writers
      ensures Valid()
      ensures var fields := env[old(nodes)[i].typeName].names;
              if key !in fields then
                child == None && nodes == old(nodes) && records == old(records) && writers == old(writers)
              else
                && child == Some(|old(nodes)|)
                && nodes == WithChild(old(nodes), i, fields[key])
                && records == old(records) + [[]]
                && |writers| > 0 && writers[..|writers| - 1] == old(writers)
                && fresh(writers[|writers| - 1]) && fresh(writers[|writers| - 1].buffer)
    {
      hide *;
      ValidParts(i);
      var p := FindField(names, env[nodes[i].typeName], key);
      if p == None { return None; }
      var f := p.value;
      KnownField(env, nodes, records, i, key);
      ShapeChild(env, nodes, records, i, f);
      LinkedIs();
      PackedTables.OneTableMore(tables, PackedOf(nodes), memory);
      HeadsMore(nodes, heads, i, f);
      ghost var lists := PackedOf(nodes);
      var w := new Writer();
      AddWriter(w);
      child := Some(|heads|);
      heads := heads[i := heads[i].(sub := heads[i].sub + [Sub.Sub(f, |heads|)])] + [Head(f.typeName, [])];
      tables := tables + [null];
      nodes := WithChild(nodes, i, f);
      assert PackedOf(nodes) == lists + [[]];
      LinkedIs();
      BecomesValid();
    }

    method AddWriter(w: Writer)
      requires Buffers() && w.Sound() && w.Written() == []
      requires forall v <- writers :: v != w && v.buffer != w.buffer
      modifies this`writers, this`records
      ensures Buffers() && writers == old(writers) + [w] && records == old(records) + [[]]
    {
      assert Holds(w, []);
      hide Holds;
      writers := writers + [w];
      records := records + [[]];
    }

    /** `pbc_wmessage_buffer`: the packed fields and then the sub-messages, each finished in the
        same way, join what was written directly. */
    method Finish(i: nat) returns (slice: seq<byte>)
      requires Buffers() && Linked() && |writers| == |records| && CanFinish(nodes, records, i)
      modifies this`records, writers, set w <- writers :: w.buffer
      ensures Buffers() && Linked() && (forall w <- writers :: w.buffer == old(w.buffer) || fresh(w.buffer))
      ensures |records| == |nodes| == |old(records)| && i < |nodes| && Downward(nodes) && FieldsOk(nodes)
      ensures slice == Encode(FinalRecords(nodes, old(records), i))
      ensures records[i] == FinalRecords(nodes, old(records), i)
      ensures OnlyUnder(nodes, old(records), records, i)
      decreases |nodes| - i, 1
    {
      hide *;
      CanFinishFacts(nodes, records, i);
      ghost var start := records;
      FinishPacked(i);
      FlushedFirst(nodes, start, records, i);
      LinkedIs();
      var k := 0;
      while k < |heads[i].sub|
        invariant 0 <= k <= |nodes[i].sub| && Buffers() && Linked() && |records| == |nodes|
        invariant forall w <- writers :: w.buffer == old(w.buffer) || fresh(w.buffer)
        invariant Flushed(nodes, start, records, i, k)
      {
        FinishSub(i, k, start);
        k := k + 1;
      }
      FlushedAll(nodes, start, records, i);
      slice := Bytes(i);
    }

    /** One turn of the loop over the sub-messages. */
    method FinishSub(i: nat, k: nat, ghost start: seq<seq<Record>>)
      requires Buffers() && Linked() && CanFinish(nodes, start, i)
      requires |records| == |writers| == |nodes| && k < |nodes[i].sub|
      requires Flushed(nodes, start, records, i, k)
      modifies this`records, writers, set w <- writers :: w.buffer
      ensures Buffers() && Linked() && (forall w <- writers :: w.buffer == old(w.buffer) || fresh(w.buffer))
      ensures |records| == |nodes| && Flushed(nodes, start, records, i, k + 1)
      decreases |nodes| - i, 0
    {
      hide *;
      CanFinishFacts(nodes, start, i);
      LinkedIs();
      var s := heads[i].sub[k];
      ghost var before := records;
      FlushedNext(nodes, start, records, i, k);
      var bytes := Finish(s.child);
      FlushedStep(nodes, start, before, records, i, k);
      AddSub(i, s.field.id, bytes);
    }

    /** The bytes written to a message so far. */
    method Bytes(i: nat) returns (b: seq<byte>)
      requires Buffers() && i < |writers|
      ensures b == Encode(records[i])
    {
      assert Holds(writers[i], records[i]);
      b := writers[i].buffer[..writers[i].ptr];
    }

    method AddSub(i: nat, id: nat, bytes: seq<byte>)
      requires Buffers() && Linked() && i < |writers| && 0 < id < 0x1000_0000 && |bytes| < 0x8000_0000
      modifies this`records, writers[i], writers[i].buffer
      ensures Buffers() && Linked() && (writers[i].buffer == old(writers[i].buffer) || fresh(writers[i].buffer))
      ensures records == old(records)[i := old(records)[i] + [Record(id, Payload.Bytes(bytes))]]
    {
      LinkedIs();
      hide Holds;
      HoldSub(writers[i], records[i], id, bytes);
      records := records[i := records[i] + [Record(id, Payload.Bytes(bytes))]];
      LinkedIs();
    }

    method FinishPacked(i: nat)
      requires Buffers() && Linked() && |writers| == |records| && CanFinish(nodes, records, i)
      modifies this`records, writers[i], writers[i].buffer
      ensures Buffers() && Linked() && (writers[i].buffer == old(writers[i].buffer) || fresh(writers[i].buffer))
      ensures i < |nodes| && FieldsOk(nodes)
      ensures |records| == |old(records)| == |nodes|
              && records == old(records)[i := old(records)[i] + PackedRecords(nodes[i].packed)]
    {
      hide *;
      CanFinishFacts(nodes, records, i);
      LinkedIs();
      var packed := PackedTables.ListOf(tables, PackedOf(nodes), memory, i);
      ghost var start := records;
      PackedFirst(start, i, packed);
      for k := 0 to |packed|
        invariant Buffers() && Linked() && (writers[i].buffer == old(writers[i].buffer) || fresh(writers[i].buffer))
        invariant records == start[i := start[i] + PackedRecords(packed[..k])]
      {
        PackedStep(start, i, packed, k);
        AddPackedRecord(i, packed[k]);
      }
      assert packed[..|packed|] == packed;
    }

    method AddPackedRecord(i: nat, p: PackedField)
      requires Buffers() && Linked() && i < |writers| && 0 < p.id < 0x1000_0000 && PackedFits(p.ptype, p.data)
      modifies this`records, writers[i], writers[i].buffer
      ensures Buffers() && Linked() && (writers[i].buffer == old(writers[i].buffer) || fresh(writers[i].buffer))
      ensures records == old(records)[i := old(records)[i] + [PackedRecord(p)]]
    {
      LinkedIs();
      hide Holds;
      HoldPacked(writers[i], records[i], p);
      records := records[i := records[i] + [PackedRecord(p)]];
      LinkedIs();
    }
  }
}
