/** From the calls that write a message to what a reader finds in it (lualib-src/pbc/src/wmessage.c,
    rmessage.c). */
module Calls {
  import opened Words
  import opened Wire
  import opened Schemas
  import opened Writers
  import opened WMessages
  import opened NumberTrips
  import opened PackedArrays
  import opened Indexes
  import opened RMessages
  import opened RoundTrip
  import opened TypeTables
  import opened StringMaps
  import opened Enums

  /** A call for message `i`, counted in the order of creation, and the field `key`; a number is written by
      `pbc_wmessage_real` if it is a double and else by `pbc_wmessage_integer`. */
  datatype Call =
    | PutNumber(i: nat, key: string, v: LongLong, asDouble: bool)
    | PutText(i: nat, key: string, text: seq<byte>, len: nat)
    | PutSub(i: nat, key: string)

  // ----- what the calls tell -------------------------------------------------------------------

  /** What a number or string that is put to a field adds to what a reader finds. */
  function Added(f: Field, c: Call): seq<Value> {
    match c
    case PutNumber(_, _, v, asDouble) =>
      if f.rule == Packed then (if IsNumeric(f.ptype) then [Number(PackedSeen(f.ptype, v))] else [])
      else if Elided(f, v, asDouble) || WrittenPayload(f.ptype, v, asDouble).None? then []
      else [Number(Seen(f.ptype, v))]
    case PutText(_, _, text, len) =>
      if len > |text| then []
      else if f.ptype == Enum then
        var x := NameNumber(f, text, len);
        if x.None? then []
        else if f.rule == Packed then [Number(PackedSeen(Enum, x.value))]
        else if ElidedText(f, text, len) then [] else [Number(x.value)]
      else if f.rule == Packed || f.ptype !in {String, PType.Bytes} || ElidedText(f, text, len) then []
      else [Text(text[..len])]
    case PutSub(_, _) => []
  }

  /** The types of the messages that the calls make, beginning with the message `root`. */
  function Types(env: Env, root: string, calls: seq<Call>): (ts: seq<string>)
    ensures |ts| > 0
  {
    if calls == [] then [root]
    else
      var ts, c := Types(env, root, calls[..|calls| - 1]), calls[|calls| - 1];
      if c.PutSub? && c.i < |ts| && ts[c.i] in env && c.key in env[ts[c.i]].names
        then ts + [env[ts[c.i]].names[c.key].typeName]
        else ts
  }

  /** What the calls put in message `i`: to a field of a message type the sub-messages made for it, to all
      others their numbers and strings, in the order of the calls. */
  ghost function Told(env: Env, root: string, calls: seq<Call>, i: nat): RMessage
    requires i < |Types(env, root, calls)|
    decreases |Types(env, root, calls)| - i, 2, 0
  {
    var t := Types(env, root, calls)[i];
    RMessage(t,
      if t !in env then map[]
      else map key | key in env[t].names && KeyTold(env, root, calls, |calls|, i, key) != [] ::
             Entry(env[t].names[key], KeyTold(env, root, calls, |calls|, i, key)))
  }

  /** The same for one field and the first `n` calls. */
  ghost function KeyTold(env: Env, root: string, calls: seq<Call>, n: nat, i: nat, key: string): seq<Value>
    requires n <= |calls| && i < |Types(env, root, calls)|
    requires Types(env, root, calls)[i] in env && key in env[Types(env, root, calls)[i]].names
    decreases |Types(env, root, calls)| - i, 1, n
  {
    if n == 0 then []
    else
      var f, c := env[Types(env, root, calls)[i]].names[key], calls[n - 1];
      KeyTold(env, root, calls, n - 1, i, key)
      + if c.i != i || c.key != key then []
        else if c.PutSub? then
          var child := |Types(env, root, calls[..n - 1])|;
          if i < child < |Types(env, root, calls)| then [Value.Sub(Told(env, root, calls, child))] else []
        else Added(f, c)
  }

  // ----- what the calls do -----------------------------------------------------------------------

  datatype Heap = Heap(nodes: seq<Node>, records: seq<seq<Record>>)

  /** What the methods of a message tree promise of one call that is legal. */
  ghost predicate Called(env: Env, was: Heap, now: Heap, c: Call)
    requires Shape(env, was.nodes, was.records)
  {
    && c.i < |was.nodes|
    && var names := env[was.nodes[c.i].typeName].names;
       var r := if c.key in names then 0 else -1;
       match c
       case PutNumber(i, key, v, asDouble) =>
         && |now.nodes| == |was.nodes|
         && NumberWritten(env, was.nodes, was.records, now.nodes, now.records, i, key, v, asDouble, r)
       case PutText(i, key, text, len) =>
         && (key in names ==> len <= |text| && len < 0x8000_0000)
         && |now.nodes| == |was.nodes|
         && TextWritten(env, was.nodes, was.records, now.nodes, now.records, i, key, text, len,
              if key in names && NoSuchName(names[key], text, len) then -1 else r)
       case PutSub(i, key) =>
         if key !in names then now == was
         else
           && names[key].ptype == PType.Message && names[key].rule != Packed
           && now == Heap(WithChild(was.nodes, i, names[key]), was.records + [[]])
  }

  ghost predicate Whole(env: Env, h: Heap) { Shape(env, h.nodes, h.records) && |h.records| == |h.nodes| }

  /** The calls, one after the other, on a new message. */
  ghost predicate Ran(env: Env, root: string, hs: seq<Heap>, calls: seq<Call>) {
    && |hs| == |calls| + 1 && hs[0] == Heap([Node(root, [], [])], [[]])
    && (forall n {:trigger hs[n]} :: 0 <= n <= |calls| ==> Whole(env, hs[n]))
    && forall n {:trigger calls[n]} :: 0 <= n < |calls| ==> Called(env, hs[n], hs[n + 1], calls[n])
  }

  lemma RanAt(env: Env, root: string, hs: seq<Heap>, calls: seq<Call>, n: nat)
    requires Ran(env, root, hs, calls) && n <= |calls|
    ensures |hs| == |calls| + 1 && hs[0] == Heap([Node(root, [], [])], [[]]) && Whole(env, hs[n])
    ensures n < |calls| ==> Called(env, hs[n], hs[n + 1], calls[n]) && Whole(env, hs[n + 1])
  {
    hide Whole;
    hide Called;
  }

  lemma WholeFacts(env: Env, h: Heap, j: nat)
    requires Whole(env, h) && j < |h.nodes|
    ensures |h.records| == |h.nodes| && Shape(env, h.nodes, h.records) && h.nodes[j].typeName in env
    ensures AllValid(h.records[j]) && env[h.nodes[j].typeName].Coherent() && KeysDistinct(h.nodes[j].packed)
    ensures forall k <- env[h.nodes[j].typeName].names ::
              env[h.nodes[j].typeName].names[k].name == k && 0 < env[h.nodes[j].typeName].names[k].id < 0x1000_0000
    ensures forall k, l <- env[h.nodes[j].typeName].names ::
              k in env[h.nodes[j].typeName].names && k != l ==>
                env[h.nodes[j].typeName].names[k].id != env[h.nodes[j].typeName].names[l].id
  {
    DirectValid(env, h.nodes, h.records, j);
    hide Downward;
    hide OneParent;
    hide FieldsOk;
  }

  // ----- the messages in memory and what has been told ------------------------------------------

  /** The sub-messages of a message under one key, as they will be in the end. */
  ghost function SubsTold(env: Env, root: string, calls: seq<Call>, subs: seq<Sub>, key: string): seq<Value> {
    if subs == [] then []
    else
      var s := subs[|subs| - 1];
      SubsTold(env, root, calls, subs[..|subs| - 1], key)
      + if s.field.name == key && s.child < |Types(env, root, calls)| then [Value.Sub(Told(env, root, calls, s.child))]
        else []
  }

  /** What message `j` holds for a field. */
  ghost function Holding(env: Env, root: string, calls: seq<Call>, h: Heap, j: nat, key: string): seq<Value>
    requires Whole(env, h) && j < |h.nodes| && key in env[h.nodes[j].typeName].names
  {
    WholeFacts(env, h, j);
    var f := env[h.nodes[j].typeName].names[key];
    if f.rule == Packed then PackedValues(h.nodes[j].packed, key)
    else if f.ptype == PType.Message then SubsTold(env, root, calls, h.nodes[j].sub, key)
    else KeyValues(env, f, h.records[j])
  }

  ghost predicate TypesFit(env: Env, root: string, calls: seq<Call>, n: nat, h: Heap)
    requires n <= |calls|
  {
    && |h.nodes| == |Types(env, root, calls[..n])|
    && forall j :: 0 <= j < |h.nodes| ==> h.nodes[j].typeName == Types(env, root, calls[..n])[j]
  }

  lemma {:induction false} TypesGrow(env: Env, root: string, calls: seq<Call>, n: nat)
    requires n <= |calls|
    ensures Types(env, root, calls[..n]) <= Types(env, root, calls)
    decreases |calls| - n
  {
    if n < |calls| {
      TypesGrow(env, root, calls, n + 1);
      assert calls[..n + 1][..n] == calls[..n];
    } else {
      assert calls[..n] == calls;
    }
  }

  lemma {:induction false} TypesAt(env: Env, root: string, hs: seq<Heap>, calls: seq<Call>, n: nat)
    requires Ran(env, root, hs, calls) && n <= |calls|
    ensures |hs| == |calls| + 1 && TypesFit(env, root, calls, n, hs[n])
  {
    hide *;
    RanAt(env, root, hs, calls, n);
    if n == 0 {
      TypesFirst(env, root, calls, hs[0]);
    } else {
      TypesAt(env, root, hs, calls, n - 1);
      RanAt(env, root, hs, calls, n - 1);
      TypesStep(env, hs[n - 1], hs[n], calls[n - 1]);
      TypesOneMore(env, root, calls, n - 1, hs[n - 1], hs[n]);
    }
  }

  lemma TypesFirst(env: Env, root: string, calls: seq<Call>, h: Heap)
    requires h == Heap([Node(root, [], [])], [[]])
    ensures TypesFit(env, root, calls, 0, h)
  {
    assert calls[..0] == [];
  }

  lemma TypesOneMore(env: Env, root: string, calls: seq<Call>, n: nat, was: Heap, now: Heap)
    requires n < |calls| && TypesFit(env, root, calls, n, was)
    requires calls[n].i < |was.nodes| && was.nodes[calls[n].i].typeName in env
    requires var c := calls[n];
      var names := env[was.nodes[c.i].typeName].names;
      if c.PutSub? && c.key in names then
        && |now.nodes| == |was.nodes| + 1
        && (forall j :: 0 <= j < |was.nodes| ==> now.nodes[j].typeName == was.nodes[j].typeName)
        && now.nodes[|was.nodes|] == Node(names[c.key].typeName, [], [])
      else
        && |now.nodes| == |was.nodes|
        && forall j :: 0 <= j < |was.nodes| ==> now.nodes[j].typeName == was.nodes[j].typeName
    ensures TypesFit(env, root, calls, n + 1, now)
  {
    assert calls[..n + 1][..n] == calls[..n] && calls[..n + 1][n] == calls[n];
  }

  lemma TypesStep(env: Env, was: Heap, now: Heap, c: Call)
    requires Whole(env, was) && Called(env, was, now, c)
    ensures c.i < |was.nodes| && was.nodes[c.i].typeName in env
    ensures var names := env[was.nodes[c.i].typeName].names;
            if c.PutSub? && c.key in names then
              && |now.nodes| == |was.nodes| + 1
              && (forall j :: 0 <= j < |was.nodes| ==> now.nodes[j].typeName == was.nodes[j].typeName)
              && now.nodes[|was.nodes|] == Node(names[c.key].typeName, [], [])
            else
              && |now.nodes| == |was.nodes|
              && forall j :: 0 <= j < |was.nodes| ==> now.nodes[j].typeName == was.nodes[j].typeName
  {
    WholeFacts(env, was, c.i);
    hide Whole;
    hide Shape;
    hide PackedAdded;
    hide NumberRecords;
    hide TextRecords;
  }

  // ----- one call ---------------------------------------------------------------------------------

  lemma PackedAddedValues(was: seq<PackedField>, now: seq<PackedField>, f: Field, v: LongLong, key: string)
    requires KeysDistinct(was) && KeysDistinct(now) && PackedAdded(was, now, f, v)
    requires forall p <- was :: p.key == f.name ==> p.ptype == f.ptype
    ensures PackedValues(now, key)
         == PackedValues(was, key)
            + if key == f.name && IsNumeric(f.ptype) then [Number(PackedSeen(f.ptype, v))] else []
  {
    if k :| 0 <= k < |was| && was[k].key == f.name {
      JoinedValues(was, now, f, v, key);
    } else {
      NewValues(was, now, f, v, key);
    }
  }

  lemma {:induction false} NoValues(packed: seq<PackedField>, key: string)
    requires forall p <- packed :: p.key == key ==> !IsNumeric(p.ptype)
    ensures PackedValues(packed, key) == []
  {
    if packed != [] { NoValues(packed[..|packed| - 1], key); }
  }

  lemma SeenOneMore(ptype: PType, data: seq<LongLong>, v: LongLong)
    ensures Numbers(AllSeen(ptype, data + [v])) == Numbers(AllSeen(ptype, data)) + [Number(PackedSeen(ptype, v))]
    ensures Numbers(AllSeen(ptype, [v])) == [Number(PackedSeen(ptype, v))]
  {
    hide PackedSeen;
  }

  lemma EntryValues(packed: seq<PackedField>, k: nat)
    requires KeysDistinct(packed) && k < |packed| && IsNumeric(packed[k].ptype)
    ensures PackedValues(packed, packed[k].key) == Numbers(AllSeen(packed[k].ptype, packed[k].data))
  {
    hide *;
    ValuesOfPacked(packed, k, |packed|);
    assert packed[..|packed|] == packed;
  }

  /** Entries under other keys do not matter. */
  lemma {:induction false} SameValues(was: seq<PackedField>, now: seq<PackedField>, key: string)
    requires |was| == |now|
             && forall k :: 0 <= k < |was| ==> now[k] == was[k] || (now[k].key != key && was[k].key != key)
    ensures PackedValues(now, key) == PackedValues(was, key)
  {
    if was != [] {
      hide AllSeen;
      SameValues(was[..|was| - 1], now[..|now| - 1], key);
    }
  }

  /** Nor does the order of the entries. */
  lemma ReorderedValues(a: seq<PackedField>, b: seq<PackedField>, key: string)
    requires KeysDistinct(a) && KeysDistinct(b) && forall p :: p in a <==> p in b
    ensures PackedValues(a, key) == PackedValues(b, key)
  {
    hide *;
    if p :| p in a && p.key == key && IsNumeric(p.ptype) {
      var k :| 0 <= k < |a| && a[k] == p;
      assert p in b;
      var l :| 0 <= l < |b| && b[l] == p;
      EntryValues(a, k);
      EntryValues(b, l);
    } else {
      NoValues(a, key);
      NoValues(b, key);
    }
  }

  lemma JoinedValues(was: seq<PackedField>, now: seq<PackedField>, f: Field, v: LongLong, key: string)
    requires KeysDistinct(was) && KeysDistinct(now) && PackedAdded(was, now, f, v)
    requires exists k :: 0 <= k < |was| && was[k].key == f.name
    requires forall p <- was :: p.key == f.name ==> p.ptype == f.ptype
    ensures PackedValues(now, key)
         == PackedValues(was, key)
            + if key == f.name && IsNumeric(f.ptype) then [Number(PackedSeen(f.ptype, v))] else []
  {
    var k :| 0 <= k < |was| && was[k].key == f.name && now == was[k := was[k].(data := was[k].data + [v])];
    assert was[k] in was;
    hide *;
    if key != f.name {
      SameValues(was, now, key);
    } else if IsNumeric(f.ptype) {
      EntryValues(was, k);
      EntryValues(now, k);
      SeenOneMore(f.ptype, was[k].data, v);
    } else {
      forall p | p in now ensures p.key == key ==> !IsNumeric(p.ptype) {
        var j :| 0 <= j < |now| && now[j] == p;
        assert was[j] in was;
      }
      NoValues(was, key);
      NoValues(now, key);
    }
  }

  lemma NewValues(was: seq<PackedField>, now: seq<PackedField>, f: Field, v: LongLong, key: string)
    requires KeysDistinct(was) && KeysDistinct(now) && PackedAdded(was, now, f, v)
    requires !exists k :: 0 <= k < |was| && was[k].key == f.name
    ensures PackedValues(now, key)
         == PackedValues(was, key)
            + if key == f.name && IsNumeric(f.ptype) then [Number(PackedSeen(f.ptype, v))] else []
  {
    var p := PackedField(f.name, f.id, f.ptype, [v]);
    SameMembers(now, was + [p]);
    ReorderedValues(now, was + [p], key);
    SeenOneMore(f.ptype, [], v);
    assert (was + [p])[..|was|] == was;
    hide AllSeen;
    hide PackedSeen;
    hide Numbers;
    hide KeysDistinct;
  }

  lemma SameMembers<T>(a: seq<T>, b: seq<T>)
    requires multiset(a) == multiset(b)
    ensures forall x :: x in a <==> x in b
  {
    assert forall x :: x in a <==> x in multiset(a);
    assert forall x :: x in b <==> x in multiset(b);
  }

  /** The records that a write adds, seen through a field. */
  lemma WroteNumber(env: Env, f: Field, o: Field, v: LongLong, asDouble: bool)
    requires 0 < f.id < 0x1000_0000 && f.rule != Packed && (f.id == o.id ==> f == o)
    ensures AllValid(NumberRecords(f, v, asDouble))
    ensures KeyValues(env, o, NumberRecords(f, v, asDouble))
            == if f == o then Added(f, PutNumber(0, f.name, v, asDouble)) else []
  {
    var rs := NumberRecords(f, v, asDouble);
    if rs != [] { NumberComesBack(env, f, v, asDouble); }
    OwnOfNumber(f, v, asDouble, o.id);
    NoRecords(env, o);
    hide NumberRecords;
    hide Seen;
    hide WrittenPayload;
    hide Values;
  }

  lemma NoRecords(env: Env, f: Field)
    ensures AllValid([]) && Own([], f.id) == [] && Values(env, f, []) == [] && KeyValues(env, f, []) == []
  {
  }

  lemma WroteText(env: Env, f: Field, o: Field, text: seq<byte>, len: nat)
    requires 0 < f.id < 0x1000_0000 && f.rule != Packed && (f.id == o.id ==> f == o)
    requires len <= |text| && len < 0x8000_0000
    ensures AllValid(TextRecords(f, text, len))
    ensures KeyValues(env, o, TextRecords(f, text, len))
            == if f == o then Added(f, PutText(0, f.name, text, len)) else []
  {
    hide *;
    var rs := TextRecords(f, text, len);
    TextShape(f, text, len);
    if rs == [] {
      NoRecords(env, o);
    } else {
      OneRecord(env, o, rs[0]);
      if f == o { TextValue(env, f, text, len); }
    }
  }

  /** The record of a text or a name, and what it tells. */
  lemma TextShape(f: Field, text: seq<byte>, len: nat)
    requires 0 < f.id < 0x1000_0000 && f.rule != Packed && len <= |text| && len < 0x8000_0000
    ensures var rs, values := TextRecords(f, text, len), Added(f, PutText(0, f.name, text, len));
            if rs == [] then values == []
            else
              && rs == [rs[0]] && rs[0].id == f.id && rs[0].Valid() && AllValid(rs)
              && values == if f.ptype == Enum then [Number(NameNumber(f, text, len).value)] else [Text(text[..len])]
  {
    hide NameNumber;
    hide ElidedText;
  }

  lemma TextValue(env: Env, f: Field, text: seq<byte>, len: nat)
    requires 0 < f.id < 0x1000_0000 && f.rule != Packed && len <= |text| && len < 0x8000_0000
    requires TextRecords(f, text, len) != []
    ensures RecordValues(env, f, TextRecords(f, text, len)[0])
         == if f.ptype == Enum then [Number(NameNumber(f, text, len).value)] else [Text(text[..len])]
  {
    if f.ptype == Enum { NameIsWhole(f, text, len); }
    hide NameNumber;
    hide ElidedText;
  }

  lemma NameIsWhole(f: Field, text: seq<byte>, len: nat)
    requires len <= |text|
    ensures match NameNumber(f, text, len)
            case None => true
            case Some(x) => x.hi == 0 && Halves(x.low) == x
  {
  }

  /** What a call adds to a field of message `j`, when there are `size` messages. */
  ghost function Brought(env: Env, root: string, calls: seq<Call>, f: Field, c: Call, size: nat, j: nat,
                         key: string): seq<Value> {
    if c.i != j || c.key != key then []
    else if c.PutSub? then
      if j < size < |Types(env, root, calls)| then [Value.Sub(Told(env, root, calls, size))] else []
    else Added(f, c)
  }

  lemma HoldingIs(env: Env, root: string, calls: seq<Call>, h: Heap, j: nat, key: string)
    requires Whole(env, h) && j < |h.nodes| == |h.records| && h.nodes[j].typeName in env
    requires key in env[h.nodes[j].typeName].names && AllValid(h.records[j])
    ensures var f := env[h.nodes[j].typeName].names[key];
            Holding(env, root, calls, h, j, key)
            == if f.rule == Packed then PackedValues(h.nodes[j].packed, key)
               else if f.ptype == PType.Message then SubsTold(env, root, calls, h.nodes[j].sub, key)
               else KeyValues(env, f, h.records[j])
  {
    hide Whole;
    hide PackedValues;
    hide SubsTold;
    hide KeyValues;
  }

  /** A call that leaves message `j` as it is. */
  lemma Untouched(env: Env, root: string, calls: seq<Call>, was: Heap, now: Heap, j: nat, key: string)
    requires Whole(env, was) && Whole(env, now) && j < |was.nodes| && j < |now.nodes|
    requires was.nodes[j] == now.nodes[j] && j < |was.records| && j < |now.records| && was.records[j] == now.records[j]
    requires key in env[was.nodes[j].typeName].names
    ensures Holding(env, root, calls, now, j, key) == Holding(env, root, calls, was, j, key)
  {
    WholeFacts(env, was, j);
    WholeFacts(env, now, j);
    hide *;
    HoldingIs(env, root, calls, was, j, key);
    HoldingIs(env, root, calls, now, j, key);
  }

  /** A packed number. */
  lemma PackedCalled(env: Env, root: string, calls: seq<Call>, was: Heap, now: Heap, f: Field, i: nat, v: LongLong,
                     asDouble: bool, key: string)
    requires Whole(env, was) && Whole(env, now) && i < |was.nodes| == |now.nodes|
             && key in env[was.nodes[i].typeName].names
    requires f.name in env[was.nodes[i].typeName].names
             && env[was.nodes[i].typeName].names[f.name] == f && f.rule == Packed
    requires PackedAdded(was.nodes[i].packed, now.nodes[i].packed, f, v)
    requires now.records == was.records && now.nodes == was.nodes[i := was.nodes[i].(packed := now.nodes[i].packed)]
    ensures Holding(env, root, calls, now, i, key)
         == Holding(env, root, calls, was, i, key)
            + if key == f.name then Added(f, Call.PutNumber(i, key, v, asDouble)) else []
  {
    WholeFacts(env, was, i);
    WholeFacts(env, now, i);
    PackedTypes(env, was, i, f);
    hide *;
    HoldingIs(env, root, calls, was, i, key);
    HoldingIs(env, root, calls, now, i, key);
    PackedAddedValues(was.nodes[i].packed, now.nodes[i].packed, f, v, key);
    AddedPacked(f, i, key, v, asDouble);
  }

  lemma AddedPacked(f: Field, i: nat, key: string, v: LongLong, asDouble: bool)
    requires f.rule == Packed
    ensures Added(f, Call.PutNumber(i, key, v, asDouble))
            == if IsNumeric(f.ptype) then [Number(PackedSeen(f.ptype, v))] else []
  {
  }

  lemma PackedTypes(env: Env, h: Heap, i: nat, f: Field)
    requires Whole(env, h) && i < |h.nodes| && h.nodes[i].typeName in env
    requires f.name in env[h.nodes[i].typeName].names && env[h.nodes[i].typeName].names[f.name] == f
    ensures forall p <- h.nodes[i].packed :: p.key == f.name ==> p.ptype == f.ptype
  {
    DirectValid(env, h.nodes, h.records, i);
    hide Shape;
  }

  /** Records that join those of message `i`: `added` is what they tell about their own field. */
  lemma DirectCalled(env: Env, root: string, calls: seq<Call>, was: Heap, now: Heap, f: Field, i: nat, rs: seq<Record>,
                     added: seq<Value>, key: string)
    requires Whole(env, was) && Whole(env, now) && i < |was.nodes| && now.nodes == was.nodes
    requires i < |was.records| && now.records == was.records[i := was.records[i] + rs]
    requires key in env[was.nodes[i].typeName].names
    requires f.name in env[was.nodes[i].typeName].names
             && env[was.nodes[i].typeName].names[f.name] == f && f.rule != Packed
    requires f.ptype == PType.Message ==> added == []
    requires AllValid(rs)
    requires var o := env[was.nodes[i].typeName].names[key]; KeyValues(env, o, rs) == if o == f then added else []
    ensures Holding(env, root, calls, now, i, key)
         == Holding(env, root, calls, was, i, key) + if key == f.name then added else []
  {
    WholeFacts(env, was, i);
    WholeFacts(env, now, i);
    hide *;
    HoldingIs(env, root, calls, was, i, key);
    HoldingIs(env, root, calls, now, i, key);
    KeyValuesConcat(env, env[was.nodes[i].typeName].names[key], was.records[i], rs);
  }

  /** The field that another key names is another field. */
  lemma OtherField(env: Env, h: Heap, i: nat, key: string, other: string)
    requires Whole(env, h) && i < |h.nodes| && h.nodes[i].typeName in env
    requires key in env[h.nodes[i].typeName].names && other in env[h.nodes[i].typeName].names
    ensures var f, o := env[h.nodes[i].typeName].names[key], env[h.nodes[i].typeName].names[other];
            && f.name == key && 0 < f.id < 0x1000_0000
            && (f.id == o.id ==> f == o) && (f == o ==> key == other)
  {
    WholeFacts(env, h, i);
    hide Whole;
  }

  lemma AddedTo(f: Field, c: Call)
    ensures c.PutText? && f.rule == Packed && f.ptype != Enum ==> Added(f, c) == []
    ensures f.ptype == PType.Message && f.rule != Packed ==> Added(f, c) == []
    ensures c.PutNumber? ==> Added(f, c) == Added(f, Call.PutNumber(0, f.name, c.v, c.asDouble))
    ensures c.PutText? ==> Added(f, c) == Added(f, Call.PutText(0, f.name, c.text, c.len))
  {
    hide Elided;
    hide ElidedText;
    hide NameNumber;
    hide Seen;
    hide PackedSeen;
  }

  /** A call for message `j` that is no new sub-message. */
  lemma PutCalled(env: Env, root: string, calls: seq<Call>, was: Heap, now: Heap, c: Call, key: string)
    requires Whole(env, was) && Whole(env, now) && Called(env, was, now, c) && !c.PutSub?
    requires c.key in env[was.nodes[c.i].typeName].names && key in env[was.nodes[c.i].typeName].names
    ensures now.nodes[c.i].typeName == was.nodes[c.i].typeName && |now.nodes| == |was.nodes|
    ensures var f := env[was.nodes[c.i].typeName].names[c.key];
            Holding(env, root, calls, now, c.i, key)
            == Holding(env, root, calls, was, c.i, key) + if key == c.key then Added(f, c) else []
  {
    var f := env[was.nodes[c.i].typeName].names[c.key];
    hide *;
    if f.rule == Packed {
      PutPacked(env, root, calls, was, now, c, key);
    } else {
      PutDirect(env, root, calls, was, now, c, key);
    }
  }

  lemma PutPacked(env: Env, root: string, calls: seq<Call>, was: Heap, now: Heap, c: Call, key: string)
    requires Whole(env, was) && Whole(env, now) && Called(env, was, now, c) && !c.PutSub?
    requires c.key in env[was.nodes[c.i].typeName].names && key in env[was.nodes[c.i].typeName].names
    requires env[was.nodes[c.i].typeName].names[c.key].rule == Packed
    ensures now.nodes[c.i].typeName == was.nodes[c.i].typeName && |now.nodes| == |was.nodes|
    ensures var f := env[was.nodes[c.i].typeName].names[c.key];
            Holding(env, root, calls, now, c.i, key)
            == Holding(env, root, calls, was, c.i, key) + if key == c.key then Added(f, c) else []
  {
    var i, f := c.i, env[was.nodes[c.i].typeName].names[c.key];
    hide *;
    CalledAt(env, was, now, c, i);
    OtherField(env, was, i, c.key, key);
    CalledParts(env, was, now, c);
    AddedTo(f, c);
    if c.PutNumber? {
      PackedCalled(env, root, calls, was, now, f, i, c.v, c.asDouble, key);
      AddedPacked(f, i, key, c.v, c.asDouble);
      AddedPackedSame(f, c, key);
    } else if f.ptype == Enum && NameNumber(f, c.text, c.len).Some? {
      var x := NameNumber(f, c.text, c.len).value;
      PackedCalled(env, root, calls, was, now, f, i, x, false, key);
      NamePacked(f, c, i, key, x);
    } else {
      NothingPacked(f, c);
      Untouched(env, root, calls, was, now, i, key);
    }
  }

  lemma PutDirect(env: Env, root: string, calls: seq<Call>, was: Heap, now: Heap, c: Call, key: string)
    requires Whole(env, was) && Whole(env, now) && Called(env, was, now, c) && !c.PutSub?
    requires c.key in env[was.nodes[c.i].typeName].names && key in env[was.nodes[c.i].typeName].names
    requires env[was.nodes[c.i].typeName].names[c.key].rule != Packed
    ensures now.nodes[c.i].typeName == was.nodes[c.i].typeName && |now.nodes| == |was.nodes|
    ensures var f := env[was.nodes[c.i].typeName].names[c.key];
            Holding(env, root, calls, now, c.i, key)
            == Holding(env, root, calls, was, c.i, key) + if key == c.key then Added(f, c) else []
  {
    var i, f := c.i, env[was.nodes[c.i].typeName].names[c.key];
    hide *;
    CalledAt(env, was, now, c, i);
    OtherField(env, was, i, c.key, key);
    CalledParts(env, was, now, c);
    AddedTo(f, c);
    var o := env[was.nodes[i].typeName].names[key];
    if c.PutNumber? {
      WroteNumber(env, f, o, c.v, c.asDouble);
      DirectCalled(env, root, calls, was, now, f, i, NumberRecords(f, c.v, c.asDouble), Added(f, c), key);
    } else {
      WroteText(env, f, o, c.text, c.len);
      DirectCalled(env, root, calls, was, now, f, i, TextRecords(f, c.text, c.len), Added(f, c), key);
    }
  }

  lemma NamePacked(f: Field, c: Call, i: nat, key: string, x: LongLong)
    requires f.rule == Packed && f.ptype == Enum && c.PutText? && c.len <= |c.text|
    requires NameNumber(f, c.text, c.len) == Some(x)
    ensures Added(f, c) == Added(f, Call.PutNumber(i, key, x, false))
  {
    hide NameNumber;
  }

  lemma NothingPacked(f: Field, c: Call)
    requires f.rule == Packed && c.PutText? && c.len <= |c.text|
    requires f.ptype != Enum || NameNumber(f, c.text, c.len) == None
    ensures Added(f, c) == []
  {
    hide NameNumber;
  }

  lemma AddedPackedSame(f: Field, c: Call, key: string)
    requires f.rule == Packed && c.PutNumber?
    ensures Added(f, c) == Added(f, Call.PutNumber(c.i, key, c.v, c.asDouble))
  {
  }

  lemma CalledParts(env: Env, was: Heap, now: Heap, c: Call)
    requires Whole(env, was) && Called(env, was, now, c) && c.i < |was.nodes| && was.nodes[c.i].typeName in env
    ensures var names := env[was.nodes[c.i].typeName].names;
            c.key !in names ==> now == was
    ensures var names := env[was.nodes[c.i].typeName].names;
            c.key in names && !c.PutSub? ==>
              && |now.nodes| == |was.nodes|
              && var f := names[c.key];
                 && f.id >= 0
                 && (c.PutText? ==> c.len <= |c.text| && c.len < 0x8000_0000)
                 && if f.rule == Packed then
                      && now.records == was.records
                      && if c.PutNumber? then
                           && PackedAdded(was.nodes[c.i].packed, now.nodes[c.i].packed, f, c.v)
                           && now.nodes == was.nodes[c.i := was.nodes[c.i].(packed := now.nodes[c.i].packed)]
                         else if f.ptype == Enum && NameNumber(f, c.text, c.len).Some? then
                           && PackedAdded(was.nodes[c.i].packed, now.nodes[c.i].packed, f,
                                NameNumber(f, c.text, c.len).value)
                           && now.nodes == was.nodes[c.i := was.nodes[c.i].(packed := now.nodes[c.i].packed)]
                         else now.nodes == was.nodes
                    else
                      && now.nodes == was.nodes && c.i < |was.records|
                      && now.records == was.records[c.i := was.records[c.i]
                           + if c.PutNumber? then NumberRecords(f, c.v, c.asDouble) else TextRecords(f, c.text, c.len)]
    ensures var names := env[was.nodes[c.i].typeName].names;
            c.key in names && c.PutSub? ==>
              && names[c.key].ptype == PType.Message && names[c.key].rule != Packed
              && now == Heap(WithChild(was.nodes, c.i, names[c.key]), was.records + [[]])
  {
    WholeFacts(env, was, c.i);
    hide Shape;
    hide PackedAdded;
    hide NumberRecords;
    hide TextRecords;
    hide NameNumber;
    hide NoSuchName;
    hide WithChild;
  }

  /** A new sub-message of message `c.i`. */
  lemma SubCalled(env: Env, root: string, calls: seq<Call>, was: Heap, now: Heap, c: Call, key: string)
    requires Whole(env, was) && Whole(env, now) && Called(env, was, now, c) && c.PutSub?
    requires c.key in env[was.nodes[c.i].typeName].names && key in env[was.nodes[c.i].typeName].names
    ensures |now.nodes| == |was.nodes| + 1 && now.nodes[c.i].typeName == was.nodes[c.i].typeName
    ensures Holding(env, root, calls, now, c.i, key)
         == Holding(env, root, calls, was, c.i, key)
            + if key == c.key && |was.nodes| < |Types(env, root, calls)|
              then [Value.Sub(Told(env, root, calls, |was.nodes|))]
              else []
  {
    var i, f := c.i, env[was.nodes[c.i].typeName].names[c.key];
    WholeFacts(env, was, i);
    OtherField(env, was, i, c.key, key);
    CalledParts(env, was, now, c);
    ChildAt(was, i, f);
    WholeFacts(env, now, i);
    hide *;
    HoldingIs(env, root, calls, was, i, key);
    HoldingIs(env, root, calls, now, i, key);
    SubsMore(env, root, calls, was.nodes[i].sub, Sub.Sub(f, |was.nodes|), key);
  }

  lemma ChildAt(h: Heap, i: nat, f: Field)
    requires i < |h.nodes| == |h.records|
    ensures var nodes := WithChild(h.nodes, i, f);
            && |nodes| == |h.nodes| + 1
            && (forall j :: 0 <= j < |h.nodes| && j != i ==> nodes[j] == h.nodes[j])
            && nodes[i] == h.nodes[i].(sub := h.nodes[i].sub + [Sub.Sub(f, |h.nodes|)])
            && nodes[|h.nodes|] == Node(f.typeName, [], [])
    ensures forall j :: 0 <= j < |h.records| ==> (h.records + [[]])[j] == h.records[j]
    ensures (h.records + [[]])[|h.records|] == []
  {
  }

  lemma SubsMore(env: Env, root: string, calls: seq<Call>, subs: seq<Sub>, s: Sub, key: string)
    ensures SubsTold(env, root, calls, subs + [s], key)
         == SubsTold(env, root, calls, subs, key)
            + if s.field.name == key && s.child < |Types(env, root, calls)|
              then [Value.Sub(Told(env, root, calls, s.child))]
              else []
  {
    hide Told;
    assert (subs + [s])[..|subs|] == subs;
  }

  /** What is known of a message before and after a call. */
  lemma CalledAt(env: Env, was: Heap, now: Heap, c: Call, j: nat)
    requires Whole(env, was) && Whole(env, now) && Called(env, was, now, c) && j < |was.nodes|
    ensures c.i < |was.nodes| && was.nodes[c.i].typeName in env && was.nodes[j].typeName in env
    ensures |was.records| == |was.nodes| && |now.records| == |now.nodes|
    ensures c.key !in env[was.nodes[c.i].typeName].names ==> now == was
  {
    WholeFacts(env, was, j);
    WholeFacts(env, was, c.i);
    CalledParts(env, was, now, c);
    hide Called;
  }

  /** A call leaves the messages alone that it is not for. */
  lemma OtherMessage(env: Env, was: Heap, now: Heap, c: Call, j: nat)
    requires Whole(env, was) && Whole(env, now) && Called(env, was, now, c) && j < |was.nodes| && c.i != j
    ensures j < |now.nodes| && now.nodes[j] == was.nodes[j]
    ensures j < |was.records| && j < |now.records| && now.records[j] == was.records[j]
  {
    hide *;
    CalledAt(env, was, now, c, j);
    CalledParts(env, was, now, c);
    if c.key in env[was.nodes[c.i].typeName].names && c.PutSub? {
      ChildAt(was, c.i, env[was.nodes[c.i].typeName].names[c.key]);
    }
  }

  /** What one call does to what any message holds for any field. */
  lemma HoldingStep(env: Env, root: string, calls: seq<Call>, was: Heap, now: Heap, c: Call, j: nat, key: string)
    requires Whole(env, was) && Whole(env, now) && Called(env, was, now, c)
    requires j < |was.nodes| && key in env[was.nodes[j].typeName].names
    ensures j < |now.nodes| && now.nodes[j].typeName == was.nodes[j].typeName
    ensures var f := env[was.nodes[j].typeName].names[key];
            Holding(env, root, calls, now, j, key)
            == Holding(env, root, calls, was, j, key) + Brought(env, root, calls, f, c, |was.nodes|, j, key)
  {
    hide *;
    CalledAt(env, was, now, c, j);
    BroughtIs(env, root, calls, env[was.nodes[j].typeName].names[key], c, |was.nodes|, j, key);
    if c.i != j {
      OtherMessage(env, was, now, c, j);
      Untouched(env, root, calls, was, now, j, key);
    } else if c.key !in env[was.nodes[j].typeName].names {
      assert now == was;
    } else if c.PutSub? {
      SubCalled(env, root, calls, was, now, c, key);
    } else {
      PutCalled(env, root, calls, was, now, c, key);
    }
  }

  lemma BroughtIs(env: Env, root: string, calls: seq<Call>, f: Field, c: Call, size: nat, j: nat, key: string)
    ensures Brought(env, root, calls, f, c, size, j, key)
         == if c.i != j || c.key != key then []
            else if c.PutSub? then
              if j < size < |Types(env, root, calls)| then [Value.Sub(Told(env, root, calls, size))] else []
            else Added(f, c)
  {
    hide Told;
    hide Types;
    hide Added;
  }

  // ----- all calls --------------------------------------------------------------------------------

  lemma KeyToldStep(env: Env, root: string, calls: seq<Call>, n: nat, i: nat, key: string)
    requires n < |calls| && i < |Types(env, root, calls)|
    requires Types(env, root, calls)[i] in env && key in env[Types(env, root, calls)[i]].names
    ensures KeyTold(env, root, calls, 0, i, key) == []
    ensures var f := env[Types(env, root, calls)[i]].names[key];
            KeyTold(env, root, calls, n + 1, i, key)
            == KeyTold(env, root, calls, n, i, key)
               + Brought(env, root, calls, f, calls[n], |Types(env, root, calls[..n])|, i, key)
  {
    hide Told;
    hide Added;
    hide Types;
  }

  /** Nothing has been told of a message that is not there yet. */
  lemma {:induction false} NotToldYet(env: Env, root: string, hs: seq<Heap>, calls: seq<Call>, n: nat, i: nat,
                                      key: string)
    requires Ran(env, root, hs, calls) && n <= |calls| && |hs| == |calls| + 1
             && |hs[n].nodes| <= i < |Types(env, root, calls)|
    requires Types(env, root, calls)[i] in env && key in env[Types(env, root, calls)[i]].names
    ensures KeyTold(env, root, calls, n, i, key) == []
  {
    hide *;
    if n > 0 {
      KeyToldStep(env, root, calls, n - 1, i, key);
      RanAt(env, root, hs, calls, n - 1);
      TypesStep(env, hs[n - 1], hs[n], calls[n - 1]);
      NotToldYet(env, root, hs, calls, n - 1, i, key);
      BroughtIs(env, root, calls, env[Types(env, root, calls)[i]].names[key], calls[n - 1],
                |Types(env, root, calls[..n - 1])|, i, key);
    } else {
      ToldNothing(env, root, calls, i, key);
    }
  }

  lemma ToldNothing(env: Env, root: string, calls: seq<Call>, i: nat, key: string)
    requires i < |Types(env, root, calls)|
    requires Types(env, root, calls)[i] in env && key in env[Types(env, root, calls)[i]].names
    ensures KeyTold(env, root, calls, 0, i, key) == []
  {
  }

  /** A new message holds nothing. */
  lemma HoldsNothing(env: Env, root: string, calls: seq<Call>, h: Heap, j: nat, key: string)
    requires Whole(env, h) && j < |h.nodes| == |h.records| && key in env[h.nodes[j].typeName].names
    requires h.nodes[j].packed == [] && h.nodes[j].sub == [] && h.records[j] == []
    ensures Holding(env, root, calls, h, j, key) == []
  {
    WholeFacts(env, h, j);
    HoldingIs(env, root, calls, h, j, key);
    NoRecords(env, env[h.nodes[j].typeName].names[key]);
    hide Whole;
    hide Holding;
    hide KeyValues;
  }

  /** After any number of the calls, each message holds for each field what the calls for it have told. */
  lemma {:induction false} HeldIsTold(env: Env, root: string, hs: seq<Heap>, calls: seq<Call>, n: nat, j: nat,
                                      key: string)
    requires Ran(env, root, hs, calls) && n <= |calls| && |hs| == |calls| + 1 && j < |hs[n].nodes|
    requires Whole(env, hs[n]) && key in env[hs[n].nodes[j].typeName].names
    ensures j < |Types(env, root, calls)| && Types(env, root, calls)[j] == hs[n].nodes[j].typeName
    ensures Holding(env, root, calls, hs[n], j, key) == KeyTold(env, root, calls, n, j, key)
  {
    hide *;
    TypesOnTheWay(env, root, hs, calls, n);
    RanAt(env, root, hs, calls, n);
    WholeFacts(env, hs[n], j);
    if n == 0 {
      ToldNothing(env, root, calls, j, key);
      HoldsNothing(env, root, calls, hs[0], j, key);
    } else {
      var was, c := hs[n - 1], calls[n - 1];
      RanAt(env, root, hs, calls, n - 1);
      TypesOnTheWay(env, root, hs, calls, n - 1);
      TypesStep(env, was, hs[n], c);
      if j < |was.nodes| {
        HeldIsTold(env, root, hs, calls, n - 1, j, key);
        HoldingStep(env, root, calls, was, hs[n], c, j, key);
        KeyToldStep(env, root, calls, n - 1, j, key);
      } else {
        NewHeld(env, root, hs, calls, n, j, key);
      }
    }
  }

  lemma TypesOnTheWay(env: Env, root: string, hs: seq<Heap>, calls: seq<Call>, n: nat)
    requires Ran(env, root, hs, calls) && n <= |calls|
    ensures |hs| == |calls| + 1 && |hs[n].nodes| == |Types(env, root, calls[..n])| <= |Types(env, root, calls)|
    ensures forall j :: 0 <= j < |hs[n].nodes| ==> hs[n].nodes[j].typeName == Types(env, root, calls)[j]
    ensures n == |calls| ==> |hs[n].nodes| == |Types(env, root, calls)|
  {
    TypesAt(env, root, hs, calls, n);
    TypesGrow(env, root, calls, n);
    assert calls[..|calls|] == calls;
    hide Ran;
  }

  /** The message that a call has just made. */
  lemma NewHeld(env: Env, root: string, hs: seq<Heap>, calls: seq<Call>, n: nat, j: nat, key: string)
    requires Ran(env, root, hs, calls) && 0 < n <= |calls|
             && |hs| == |calls| + 1 && |hs[n - 1].nodes| <= j < |hs[n].nodes|
    requires Whole(env, hs[n]) && key in env[hs[n].nodes[j].typeName].names
    ensures j < |Types(env, root, calls)| && Types(env, root, calls)[j] == hs[n].nodes[j].typeName
    ensures Holding(env, root, calls, hs[n], j, key) == KeyTold(env, root, calls, n, j, key) == []
  {
    hide *;
    var was, c := hs[n - 1], calls[n - 1];
    TypesOnTheWay(env, root, hs, calls, n);
    TypesOnTheWay(env, root, hs, calls, n - 1);
    RanAt(env, root, hs, calls, n - 1);
    TypesStep(env, was, hs[n], c);
    WholeFacts(env, was, c.i);
    WholeFacts(env, hs[n], j);
    CalledParts(env, was, hs[n], c);
    ChildAt(was, c.i, env[was.nodes[c.i].typeName].names[c.key]);
    HoldsNothing(env, root, calls, hs[n], j, key);
    NotToldYet(env, root, hs, calls, n - 1, j, key);
    KeyToldStep(env, root, calls, n - 1, j, key);
    var ts, size := Types(env, root, calls), |Types(env, root, calls[..n - 1])|;
    BroughtIs(env, root, calls, env[ts[j]].names[key], c, size, j, key);
  }

  /** The messages in memory stand for what the calls have told, down to the last sub-message. */
  lemma {:induction false} MeaningIsTold(env: Env, root: string, hs: seq<Heap>, calls: seq<Call>, i: nat)
    requires Ran(env, root, hs, calls) && |hs| == |calls| + 1 && Whole(env, hs[|calls|]) && i < |hs[|calls|].nodes|
    ensures i < |Types(env, root, calls)|
    ensures var h := hs[|calls|]; Meaning(env, h.nodes, h.records, i) == Told(env, root, calls, i)
    decreases |hs[|calls|].nodes| - i
  {
    hide *;
    var h := hs[|calls|];
    TypesOnTheWay(env, root, hs, calls, |calls|);
    WholeFacts(env, h, i);
    var names := env[h.nodes[i].typeName].names;
    forall k: nat | k < |h.nodes[i].sub|
      ensures h.nodes[i].sub[k].child < |Types(env, root, calls)|
      ensures Meaning(env, h.nodes, h.records, h.nodes[i].sub[k].child)
              == Told(env, root, calls, h.nodes[i].sub[k].child)
    {
      ChildBelow(env, h, i, k);
      MeaningIsTold(env, root, hs, calls, h.nodes[i].sub[k].child);
    }
    forall key <- names
      ensures KeyMeaning(env, h.nodes, h.records, i, key) == KeyTold(env, root, calls, |calls|, i, key)
    {
      HeldIsTold(env, root, hs, calls, |calls|, i, key);
      HoldingIs(env, root, calls, h, i, key);
      KeyMeaningIs(env, h, i, key);
      SubsMean(env, root, calls, h, i, key, |h.nodes[i].sub|);
      assert h.nodes[i].sub[..|h.nodes[i].sub|] == h.nodes[i].sub;
    }
    ToldIs(env, root, calls, h, i);
  }

  lemma ChildBelow(env: Env, h: Heap, i: nat, k: nat)
    requires Whole(env, h) && i < |h.nodes| && k < |h.nodes[i].sub|
    ensures i < h.nodes[i].sub[k].child < |h.nodes|
  {
    DirectValid(env, h.nodes, h.records, i);
    hide Shape;
  }

  lemma KeyMeaningIs(env: Env, h: Heap, i: nat, key: string)
    requires Whole(env, h) && i < |h.nodes| == |h.records| && h.nodes[i].typeName in env && AllValid(h.records[i])
    requires key in env[h.nodes[i].typeName].names
    ensures Shape(env, h.nodes, h.records)
    ensures var f := env[h.nodes[i].typeName].names[key];
            KeyMeaning(env, h.nodes, h.records, i, key)
            == if f.rule == Packed then PackedValues(h.nodes[i].packed, key)
               else if f.ptype == PType.Message then SubMeaning(env, h.nodes, h.records, i, key, |h.nodes[i].sub|)
               else KeyValues(env, f, h.records[i])
  {
    hide Shape;
    hide PackedValues;
    hide SubMeaning;
    hide KeyValues;
  }

  lemma {:induction false} SubsMean(env: Env, root: string, calls: seq<Call>, h: Heap, i: nat, key: string, n: nat)
    requires Shape(env, h.nodes, h.records) && i < |h.nodes| && n <= |h.nodes[i].sub|
    requires forall k: nat :: k < |h.nodes[i].sub| ==>
               var child := h.nodes[i].sub[k].child;
               && child < |h.nodes| && child < |Types(env, root, calls)|
               && Meaning(env, h.nodes, h.records, child) == Told(env, root, calls, child)
    ensures SubMeaning(env, h.nodes, h.records, i, key, n) == SubsTold(env, root, calls, h.nodes[i].sub[..n], key)
  {
    hide *;
    var subs := h.nodes[i].sub;
    if n > 0 {
      SubsMean(env, root, calls, h, i, key, n - 1);
      assert subs[..n] == subs[..n - 1] + [subs[n - 1]];
      SubMeaningMore(env, h.nodes, h.records, i, key, n);
      SubsMore(env, root, calls, subs[..n - 1], subs[n - 1], key);
    } else {
      NoSubs(env, root, calls, h, i, key);
    }
  }

  lemma NoSubs(env: Env, root: string, calls: seq<Call>, h: Heap, i: nat, key: string)
    requires Shape(env, h.nodes, h.records) && i < |h.nodes|
    ensures SubMeaning(env, h.nodes, h.records, i, key, 0) == SubsTold(env, root, calls, h.nodes[i].sub[..0], key) == []
  {
    hide Shape;
  }

  lemma SubMeaningMore(env: Env, nodes: seq<Node>, records: seq<seq<Record>>, i: nat, key: string, n: nat)
    requires Shape(env, nodes, records) && i < |nodes| && 0 < n <= |nodes[i].sub|
    ensures var s := nodes[i].sub[n - 1];
            && s.child < |nodes|
            && SubMeaning(env, nodes, records, i, key, n)
               == SubMeaning(env, nodes, records, i, key, n - 1)
                  + if s.field.name == key then [Value.Sub(Meaning(env, nodes, records, s.child))] else []
  {
    DirectValid(env, nodes, records, i);
    hide Shape;
    hide Meaning;
  }

  lemma ToldIs(env: Env, root: string, calls: seq<Call>, h: Heap, i: nat)
    requires Shape(env, h.nodes, h.records) && i < |h.nodes| && i < |Types(env, root, calls)|
    requires h.nodes[i].typeName == Types(env, root, calls)[i] && h.nodes[i].typeName in env
    requires forall key <- env[h.nodes[i].typeName].names ::
               KeyMeaning(env, h.nodes, h.records, i, key) == KeyTold(env, root, calls, |calls|, i, key)
    ensures Meaning(env, h.nodes, h.records, i) == Told(env, root, calls, i)
  {
    hide Shape;
    hide KeyMeaning;
    hide KeyTold;
    hide Types;
    var a, b := Meaning(env, h.nodes, h.records, i), Told(env, root, calls, i);
    assert a.index == b.index;
  }

  /** What a program must see to for one call on the field `f`. */
  predicate Proper(f: Field, c: Call) {
    match c
    case PutNumber(_, _, _, _) => true
    case PutText(_, _, text, len) => TextReadable(f, text, len) && TextLength(text, len) == len
    case PutSub(_, _) => f.ptype == PType.Message && f.rule != Packed
  }

  /** The enum of a field, or none. */
  function EnumFor(enums: map<Field, EnumType>, f: Field): EnumType? { if f in enums then enums[f] else null }

  /** All fields of enum types point to their enums. */
  ghost predicate EnumsOf(env: Env, enums: map<Field, EnumType>)
    reads enums.Values,
          set e <- enums.Values :: e.id, set e <- enums.Values :: e.name, set e <- enums.Values :: e.name.slot,
          set e <- enums.Values | e.id.direct != null :: e.id.direct,
          set e <- enums.Values | e.id.hash != null :: e.id.hash,
          set e <- enums.Values | e.id.hash != null :: e.id.hash.slot
  {
    forall t <- env, k :: k in env[t].names ==> HasEnum(EnumFor(enums, env[t].names[k]), env[t].names[k])
  }

  /** The same for a call when there are messages of the types `ts`: the table of the type's fields, too, can
      be asked for the key. */
  ghost predicate Legal(env: Env, ts: seq<string>, tables: map<string, StringMap<Field>>, c: Call)
    reads tables.Values, set n <- tables.Values :: n.slot
  {
    && c.i < |ts| && ts[c.i] in env && ts[c.i] in tables
    && FieldsOf(tables[ts[c.i]], env[ts[c.i]]) && tables[ts[c.i]].CanAsk(c.key)
    && (c.key in env[ts[c.i]].names ==> Proper(env[ts[c.i]].names[c.key], c))
  }

  lemma LegalIs(env: Env, ts: seq<string>, tables: map<string, StringMap<Field>>, c: Call)
    requires Legal(env, ts, tables, c)
    ensures c.i < |ts| && ts[c.i] in env && ts[c.i] in tables
    ensures FieldsOf(tables[ts[c.i]], env[ts[c.i]]) && tables[ts[c.i]].CanAsk(c.key)
    ensures c.key in env[ts[c.i]].names ==> Proper(env[ts[c.i]].names[c.key], c)
  {
    hide FieldsOf;
    hide Proper;
    hide StringMap.CanAsk;
  }

  lemma ProperIs(f: Field, c: Call)
    requires Proper(f, c)
    ensures c.PutText? ==> TextReadable(f, c.text, c.len)
    ensures c.PutText? ==> TextLength(c.text, c.len) == c.len <= |c.text| && c.len < 0x8000_0000
    ensures c.PutSub? ==> f.ptype == PType.Message && f.rule != Packed
  {
  }

  /** One call. */
  method PlayOne(tree: MessageTree, names: StringMap<Field>, e: EnumType?, c: Call)
    requires tree.Valid() && c.i < |tree.nodes| && tree.nodes[c.i].typeName in tree.env
    requires FieldsOf(names, tree.env[tree.nodes[c.i].typeName]) && names.CanAsk(c.key)
    requires var fields := tree.env[tree.nodes[c.i].typeName].names;
             c.key in fields ==> Proper(fields[c.key], c) && HasEnum(e, fields[c.key])
    modifies tree, tree.memory, tree.writers, set w <- tree.writers :: w.buffer
    ensures fresh(tree.memory - old(tree.memory))
    ensures tree.Valid() && Shape(tree.env, old(tree.nodes), old(tree.records))
    ensures Called(tree.env, Heap(old(tree.nodes), old(tree.records)), Heap(tree.nodes, tree.records), c)
    ensures forall w <- tree.writers ::
              if w in old(tree.writers) then w.buffer == old(w.buffer) || fresh(w.buffer)
                else fresh(w) && fresh(w.buffer)
  {
    hide *;
    tree.ValidParts(c.i);
    tree.LinkedIs();
    ghost var was, fields := Heap(tree.nodes, tree.records), tree.env[tree.nodes[c.i].typeName].names;
    if c.key in fields { ProperIs(fields[c.key], c); }
    match c
    case PutNumber(i, key, v, asDouble) =>
      var r;
      if asDouble { r := tree.Real(i, key, v, names); } else { r := tree.Integer(i, key, v, names); }
      NumberCalled(tree.env, was, Heap(tree.nodes, tree.records), c, r);
    case PutText(i, key, text, len) =>
      var r := tree.Text(i, key, text, len, names, e);
      TextCalled(tree.env, was, Heap(tree.nodes, tree.records), c, r);
    case PutSub(i, key) =>
      var child := tree.SubMessage(i, key, names);
      NewCalled(tree.env, was, Heap(tree.nodes, tree.records), c);
  }

  lemma NumberCalled(env: Env, was: Heap, now: Heap, c: Call, r: int)
    requires Shape(env, was.nodes, was.records) && c.PutNumber? && c.i < |was.nodes| == |now.nodes|
    requires NumberWritten(env, was.nodes, was.records, now.nodes, now.records, c.i, c.key, c.v, c.asDouble, r)
    ensures Called(env, was, now, c)
  {
    hide Shape;
    hide PackedAdded;
    hide NumberRecords;
  }

  lemma TextCalled(env: Env, was: Heap, now: Heap, c: Call, r: int)
    requires Shape(env, was.nodes, was.records) && c.PutText? && c.i < |was.nodes| == |now.nodes|
    requires c.key in env[was.nodes[c.i].typeName].names ==>
               TextLength(c.text, c.len) == c.len <= |c.text| && c.len < 0x8000_0000
    requires TextWritten(env, was.nodes, was.records, now.nodes, now.records, c.i, c.key, c.text,
               TextLength(c.text, c.len), r)
    ensures Called(env, was, now, c)
  {
    hide Shape;
    hide TextRecords;
    hide TextLength;
    hide NameNumber;
    hide NoSuchName;
    hide PackedAdded;
  }

  lemma NewCalled(env: Env, was: Heap, now: Heap, c: Call)
    requires Shape(env, was.nodes, was.records) && c.PutSub? && c.i < |was.nodes|
    requires was.nodes[c.i].typeName in env
    requires var names := env[was.nodes[c.i].typeName].names;
             if c.key !in names then now == was
             else
               && names[c.key].ptype == PType.Message && names[c.key].rule != Packed
               && now == Heap(WithChild(was.nodes, c.i, names[c.key]), was.records + [[]])
    ensures Called(env, was, now, c)
  {
    hide Shape;
    hide WithChild;
  }

  lemma RanFirst(env: Env, root: string, h: Heap)
    requires h == Heap([Node(root, [], [])], [[]]) && Shape(env, h.nodes, h.records)
    ensures Ran(env, root, [h], [])
  {
    hide Shape;
  }

  lemma RanMore(env: Env, root: string, hs: seq<Heap>, calls: seq<Call>, now: Heap, c: Call)
    requires Ran(env, root, hs, calls) && |hs| == |calls| + 1
    requires Whole(env, now) && Whole(env, hs[|calls|]) && Called(env, hs[|calls|], now, c)
    ensures Ran(env, root, hs + [now], calls + [c])
  {
    hide Called;
    hide Whole;
  }

  lemma IsWhole(tree: MessageTree)
    requires tree.Valid()
    ensures Whole(tree.env, Heap(tree.nodes, tree.records))
  {
    hide Downward;
    hide OneParent;
    hide FieldsOk;
    hide NodeFrom;
    hide RecordsFrom;
  }

  lemma EnumIs(env: Env, enums: map<Field, EnumType>, t: string, k: string)
    requires EnumsOf(env, enums) && t in env && k in env[t].names
    ensures HasEnum(EnumFor(enums, env[t].names[k]), env[t].names[k])
  {
    hide HasEnum;
  }

  /** The calls, made on a new message. */
  method Play(env: Env, root: string, tables: map<string, StringMap<Field>>, enums: map<Field, EnumType>,
              calls: seq<Call>, calcHash: string -> nat)
    returns (tree: MessageTree, ghost hs: seq<Heap>)
    requires WellFormed(env) && root in env && EnumsOf(env, enums)
    requires forall n {:trigger calls[n]} :: 0 <= n < |calls| ==>
               Legal(env, Types(env, root, calls[..n]), tables, calls[n])
    ensures fresh(tree) && tree.Valid() && tree.env == env
    ensures fresh(tree.memory) && fresh(tree.writers) && forall w <- tree.writers :: fresh(w.buffer)
    ensures Ran(env, root, hs, calls) && hs[|calls|] == Heap(tree.nodes, tree.records)
  {
    hide *;
    tree := new MessageTree(env, root, calcHash);
    tree.ValidParts(0);
    hs := [Heap(tree.nodes, tree.records)];
    RanFirst(env, root, hs[0]);
    assert calls[..0] == [];
    for n := 0 to |calls|
      invariant fresh(tree) && tree.Valid() && tree.env == env
      invariant fresh(tree.memory) && fresh(tree.writers) && forall w <- tree.writers :: fresh(w.buffer)
      invariant |hs| == n + 1 && hs[n] == Heap(tree.nodes, tree.records) && Ran(env, root, hs, calls[..n])
    {
      var c := calls[n];
      ghost var ts := Types(env, root, calls[..n]);
      assert Legal(env, ts, tables, c);
      LegalIs(env, ts, tables, c);
      TypesOnTheWay(env, root, hs, calls[..n], n);
      assert |tree.nodes| == |ts| && calls[..n][..n] == calls[..n];
      IsWhole(tree);
      assert fresh(set w <- tree.writers :: w.buffer);
      tree.ValidParts(c.i);
      tree.LinkedIs();
      var t := tree.heads[c.i].typeName;
      var e := if c.key in env[t].names then EnumFor(enums, env[t].names[c.key]) else null;
      if c.key in env[t].names { EnumIs(env, enums, t, c.key); }
      PlayOne(tree, tables[t], e, c);
      IsWhole(tree);
      assert forall i :: 0 <= i < |tree.writers| ==> tree.writers[i] in tree.writers;
      RanMore(env, root, hs, calls[..n], Heap(tree.nodes, tree.records), c);
      assert calls[..n + 1] == calls[..n] + [c];
      hs := hs + [Heap(tree.nodes, tree.records)];
    }
    assert calls[..|calls|] == calls;
  }

  /** From the calls to the reader: the calls were made on the message `tree`, which is finished, and its bytes
      are read. What the reader gets is what the calls have told. */
  method Deliver(tree: MessageTree, ghost root: string, ghost hs: seq<Heap>, ghost calls: seq<Call>,
                 calcHash: string -> nat, msgs: StringMap<string>, beyond: seq<byte>)
    returns (m: Message?, ghost kin: Kin)
    requires TypesOf(msgs, tree.env) && tree.Valid() && CanFinish(tree.nodes, tree.records, 0)
    requires Ran(tree.env, root, hs, calls) && hs[|calls|] == Heap(tree.nodes, tree.records)
    modifies tree`records, tree.writers, set w <- tree.writers :: w.buffer
    ensures m != null && m.value == Told(tree.env, root, calls, 0)
    ensures Family(kin) && m in kin.all
  {
    hide *;
    TreeParts(tree, 0);
    RanAt(tree.env, root, hs, calls, |calls|);
    MeaningIsTold(tree.env, root, hs, calls, 0);
    m, kin := SendAndReceive(tree, 0, calcHash, msgs, beyond);
  }

  /** However the tables of packed fields order their slots, what the calls leave can be finished. */
  ghost predicate Finishable(env: Env, root: string, calls: seq<Call>) {
    forall hs: seq<Heap> :: Ran(env, root, hs, calls) ==>
      |hs| == |calls| + 1 && CanFinish(hs[|calls|].nodes, hs[|calls|].records, 0)
  }

  lemma FinishableIs(env: Env, root: string, calls: seq<Call>, hs: seq<Heap>)
    requires Finishable(env, root, calls) && Ran(env, root, hs, calls)
    ensures |hs| == |calls| + 1 && CanFinish(hs[|calls|].nodes, hs[|calls|].records, 0)
  {
    hide CanFinish;
  }

  /** From a list of calls to the reader: a message is made, the calls are made on it, it is finished, and its
      bytes are read. What the reader gets is what the calls have told. */
  method Tell(env: Env, root: string, tables: map<string, StringMap<Field>>, enums: map<Field, EnumType>,
              calls: seq<Call>, calcHash: string -> nat, msgs: StringMap<string>, beyond: seq<byte>)
    returns (m: Message?, ghost kin: Kin)
    requires WellFormed(env) && root in env && TypesOf(msgs, env) && Finishable(env, root, calls)
    requires EnumsOf(env, enums)
    requires forall n {:trigger calls[n]} :: 0 <= n < |calls| ==>
               Legal(env, Types(env, root, calls[..n]), tables, calls[n])
    ensures m != null && m.value == Told(env, root, calls, 0)
    ensures Family(kin) && m in kin.all
  {
    hide *;
    var tree;
    ghost var hs;
    tree, hs := Play(env, root, tables, enums, calls, calcHash);
    FinishableIs(env, root, calls, hs);
    assert fresh(set w <- tree.writers :: w.buffer);
    m, kin := Deliver(tree, root, hs, calls, calcHash, msgs, beyond);
  }
}
