/** The wire format of single fields spelled out (lualib-src/pbc/src/wmessage.c, rmessage.c): the bytes that a
    call of a writer adds, when it adds none, and what a reader makes of the words that it finds. */
module Spelling {
  import opened Words
  import opened Varints
  import opened Wire
  import opened Schemas
  import opened Reals
  import opened PackedArrays
  import opened Writers
  import opened WMessages
  import opened Indexes
  import opened RMessages
  import opened Enums

  // ----- one number ------------------------------------------------------------------------------

  /** A word, lowest byte first. */
  function Little(n: u32): seq<byte> {
    [n % 0x100, n / 0x100 % 0x100, n / 0x1_0000 % 0x100, n / 0x100_0000 % 0x100]
  }

  /** The bytes of a number of a type, given as two words or as the words of a double. */
  function Spelled(ptype: PType, v: LongLong): seq<byte> {
    match ptype
    case Int64 | UInt64 | Int32 => Varint(v.low + 0x1_0000_0000 * v.hi)
    case UInt32 | Enum | Bool => Varint(v.low)
    case SInt32 => Varint(if v.low < 0x8000_0000 then 2 * v.low else 2 * (0x1_0000_0000 - v.low) - 1)
    case SInt64 =>
      var n := v.low + 0x1_0000_0000 * v.hi;
      Varint(if v.hi < 0x8000_0000 then 2 * n else 2 * (0x1_0000_0000_0000_0000 - n) - 1)
    case Fixed64 | SFixed64 | Double => Little(v.low) + Little(v.hi)
    case Fixed32 | SFixed32 => Little(v.low)
    case Float => Little(Narrow(v))
    case _ => []
  }

  /** The low three bits of the tag. */
  function Kind(ptype: PType): nat {
    match ptype
    case Fixed64 | SFixed64 | Double => 1
    case String | Bytes | Message => 2
    case Fixed32 | SFixed32 | Float => 5
    case _ => 0
  }

  lemma LittleIs(n: u32)
    ensures Bytes32(n) == Little(n)
  {
    BytesInNumerals(n);
  }

  lemma ZigZagIs(v: LongLong)
    ensures ZigZag32(v.low) == if v.low < 0x8000_0000 then 2 * v.low else 2 * (0x1_0000_0000 - v.low) - 1
    ensures var n := v.low + 0x1_0000_0000 * v.hi;
            ZigZag64(Join(v)) == if v.hi < 0x8000_0000 then 2 * n else 2 * (0x1_0000_0000_0000_0000 - n) - 1
  {
  }

  lemma PayloadSpelled(ptype: PType, v: LongLong)
    ensures match ValuePayload(ptype, v)
            case None => ptype in {String, PType.Bytes, PType.Message, Group}
            case Some(p) =>
              && ptype !in {String, PType.Bytes, PType.Message, Group} && !p.Bytes?
              && WireTypeOf(p) == Kind(ptype) && PayloadBytes(p) == Spelled(ptype, v)
  {
    LittleIs(v.low);
    LittleIs(v.hi);
    LittleIs(Narrow(v));
    ZigZagIs(v);
    hide Varint;
    hide Narrow;
    hide ZigZag32;
    hide ZigZag64;
    hide Bytes32;
    hide Little;
  }

  /** One record more. */
  lemma RecordAdded(r: Record, was: seq<Record>)
    ensures Encode(was + [r]) == Encode(was) + Varint(8 * r.id + WireTypeOf(r.payload)) + PayloadBytes(r.payload)
  {
    hide *;
    HoldOne(was, [r]);
    BytesOf(r);
    var tag, b := Varint(8 * r.id + WireTypeOf(r.payload)), PayloadBytes(r.payload);
    assert Encode(was) + (tag + b) == Encode(was) + tag + b;
  }

  lemma BytesOf(r: Record)
    ensures RecordBytes(r) == Varint(8 * r.id + WireTypeOf(r.payload)) + PayloadBytes(r.payload)
  {
  }

  /** A record with a number. */
  lemma RecordSpelled(id: nat, ptype: PType, v: LongLong, was: seq<Record>)
    requires ValuePayload(ptype, v).Some?
    ensures Encode(was + [Record(id, ValuePayload(ptype, v).value)])
         == Encode(was) + Varint(8 * id + Kind(ptype)) + Spelled(ptype, v)
  {
    hide *;
    PayloadSpelled(ptype, v);
    RecordAdded(Record(id, ValuePayload(ptype, v).value), was);
  }

  /** A record with bytes. */
  lemma BytesSpelled(id: nat, b: seq<byte>, was: seq<Record>)
    ensures Encode(was + [Record(id, Payload.Bytes(b))]) == Encode(was) + Varint(8 * id + 2) + Varint(|b|) + b
  {
    hide *;
    var r := Record(id, Payload.Bytes(b));
    RecordAdded(r, was);
    LendSpelled(r, b);
    var tag, n := Varint(8 * id + 2), Varint(|b|);
    assert Encode(was) + tag + (n + b) == Encode(was) + tag + n + b;
  }

  lemma LendSpelled(r: Record, b: seq<byte>)
    requires r.payload == Payload.Bytes(b)
    ensures WireTypeOf(r.payload) == 2 && PayloadBytes(r.payload) == Varint(|b|) + b
  {
  }

  // ----- what a call writes ------------------------------------------------------------------------

  /** The number is the default of an optional field. */
  predicate DefaultInteger(f: Field, v: LongLong) {
    f.rule == Optional && v.low == f.default.low && (f.ptype == Enum || v.hi == f.default.hi)
  }

  /** `pbc_wmessage_integer` adds one record, in these bytes, or, exactly for the default of an optional field and
      for types that hold no whole numbers, nothing. */
  lemma IntegerSpelled(f: Field, v: LongLong, was: seq<Record>)
    requires 0 < f.id < 0x1000_0000
    ensures var rs, none := NumberRecords(f, v, false),
              f.ptype in {Double, Float, String, PType.Bytes, PType.Message, Group} || DefaultInteger(f, v);
            && (rs == [] <==> none) && (!none ==> |rs| == 1 && rs[0].id == f.id)
            && Encode(was + rs)
               == if none then Encode(was) else Encode(was) + Varint(8 * f.id + Kind(f.ptype)) + Spelled(f.ptype, v)
  {
    hide *;
    var rs := NumberRecords(f, v, false);
    IntegerCases(f, v);
    if rs == [] {
      assert was + rs == was;
    } else {
      RecordSpelled(f.id, f.ptype, v, was);
    }
  }

  lemma IntegerCases(f: Field, v: LongLong)
    requires 0 < f.id
    ensures var none := f.ptype in {Double, Float, String, PType.Bytes, PType.Message, Group} || DefaultInteger(f, v);
            if none then NumberRecords(f, v, false) == []
            else
              && ValuePayload(f.ptype, v).Some?
              && NumberRecords(f, v, false) == [Record(f.id, ValuePayload(f.ptype, v).value)]
  {
    hide Narrow;
    hide Join;
    hide ZigZag32;
    hide ZigZag64;
  }

  /** The double is a number and the default of an optional field. */
  predicate DefaultReal(f: Field, v: LongLong) {
    f.rule == Optional && !IsNaN(v) && !IsNaN(f.default) && SignedUnits(v) == SignedUnits(f.default)
  }

  /** The same for `pbc_wmessage_real`: only doubles and floats are written. */
  lemma RealSpelled(f: Field, v: LongLong, was: seq<Record>)
    requires 0 < f.id < 0x1000_0000
    ensures var rs, none := NumberRecords(f, v, true), f.ptype !in {Double, Float} || DefaultReal(f, v);
            && (rs == [] <==> none) && (!none ==> |rs| == 1 && rs[0].id == f.id)
            && Encode(was + rs)
               == if none then Encode(was) else Encode(was) + Varint(8 * f.id + Kind(f.ptype)) + Spelled(f.ptype, v)
  {
    hide *;
    var rs := NumberRecords(f, v, true);
    RealCases(f, v);
    if rs == [] {
      assert was + rs == was;
    } else {
      RecordSpelled(f.id, f.ptype, v, was);
    }
  }

  lemma RealCases(f: Field, v: LongLong)
    requires 0 < f.id
    ensures if f.ptype !in {Double, Float} || DefaultReal(f, v) then NumberRecords(f, v, true) == []
            else
              && ValuePayload(f.ptype, v).Some?
              && NumberRecords(f, v, true) == [Record(f.id, ValuePayload(f.ptype, v).value)]
  {
    SameRealIs(v, f.default);
    hide Narrow;
    hide SameReal;
    hide SignedUnits;
    hide IsNaN;
  }

  /** How much is written of a text: as much as is said, or, for a number that is not positive, what comes before
      the first zero byte and so many bytes more. */
  lemma LengthSpelled(v: seq<byte>, len: int)
    ensures len > 0 ==> TextLength(v, len) == len
    ensures len <= 0 ==>
              var n := TextLength(v, len) + len;
              0 <= n <= |v| && 0 !in v[..n] && (n < |v| ==> v[n] == 0)
  {
    CStringIs(v);
  }

  /** The same for `pbc_wmessage_string`: an enum gets the number that its table has for the name. A string is
      compared with the default by length and up to the first zero byte, and bytes are left out when there are none. */
  lemma TextSpelled(f: Field, v: seq<byte>, len: nat, was: seq<Record>)
    requires 0 < f.id < 0x1000_0000 && len <= |v|
    ensures var rs, name := TextRecords(f, v, len), Chars(CString(v[..len]));
            var none := match f.ptype
                        case String =>
                          f.rule == Optional && len == |f.defaultText| && CString(v) == CString(f.defaultText)
                        case Bytes => f.rule == Optional && len == 0
                        case Enum => (f.rule == Optional && v[..len] == CString(f.defaultText)) || name !in f.values.ids
                        case _ => true;
            && (rs == [] <==> none) && (!none ==> |rs| == 1 && rs[0].id == f.id)
            && Encode(was + rs)
               == if none then Encode(was)
                  else if f.ptype == Enum then
                    var k: int := f.values.ids[name];
                    Encode(was) + Varint(8 * f.id) + Varint(if k >= 0 then k else 0x1_0000_0000 + k)
                  else Encode(was) + Varint(8 * f.id + 2) + Varint(len) + v[..len]
  {
    hide *;
    var rs := TextRecords(f, v, len);
    TextCases(f, v, len);
    if rs == [] {
      assert was + rs == was;
    } else if f.ptype == Enum {
      RecordAdded(rs[0], was);
      NumberSpelled(rs[0]);
    } else {
      BytesSpelled(f.id, v[..len], was);
    }
  }

  lemma NumberSpelled(r: Record)
    requires r.payload.VarintValue?
    ensures WireTypeOf(r.payload) == 0 && PayloadBytes(r.payload) == Varint(r.payload.n)
  {
  }

  lemma TextCases(f: Field, v: seq<byte>, len: nat)
    requires 0 < f.id && len <= |v|
    ensures var rs, name := TextRecords(f, v, len), Chars(CString(v[..len]));
            match f.ptype
            case String =>
              rs == if f.rule == Optional && len == |f.defaultText| && CString(v) == CString(f.defaultText) then []
                    else [Record(f.id, Payload.Bytes(v[..len]))]
            case Bytes => rs == if f.rule == Optional && len == 0 then [] else [Record(f.id, Payload.Bytes(v[..len]))]
            case Enum =>
              if (f.rule == Optional && v[..len] == CString(f.defaultText)) || name !in f.values.ids then rs == []
              else
                var k: int := f.values.ids[name];
                rs == [Record(f.id, VarintValue(if k >= 0 then k else 0x1_0000_0000 + k))]
            case _ => rs == []
  {
    hide CString;
  }

  /** A name written to an enum field: the call fails, and changes nothing, exactly when the enum's table does not
      have the name; else the number of the name is sent, or joins the packed numbers, with a high word of zero. */
  lemma NameSpelled(env: Env, nodes: seq<Node>, records: seq<seq<Record>>, nodes': seq<Node>,
                    records': seq<seq<Record>>, i: nat, key: string, v: seq<byte>, len: nat, r: int)
    requires Shape(env, nodes, records) && i < |nodes| == |nodes'| == |records| && nodes[i].typeName in env
    requires key in env[nodes[i].typeName].names && env[nodes[i].typeName].names[key].ptype == Enum && len <= |v|
    requires env[nodes[i].typeName].names[key].id >= 0
    requires TextWritten(env, nodes, records, nodes', records', i, key, v, len, r)
    ensures var f, name := env[nodes[i].typeName].names[key], Chars(CString(v[..len]));
            var default := f.rule == Optional && v[..len] == CString(f.defaultText);
            && r == (if default || name in f.values.ids then 0 else -1)
            && if default || name !in f.values.ids then nodes' == nodes && records' == records
               else
                 var k: int := f.values.ids[name];
                 var x := if k >= 0 then k else 0x1_0000_0000 + k;
                 if f.rule == Label.Packed then
                   && records' == records && PackedAdded(nodes[i].packed, nodes'[i].packed, f, LongLong(x, 0))
                   && nodes' == nodes[i := nodes[i].(packed := nodes'[i].packed)]
                 else
                   nodes' == nodes && records' == records[i := records[i] + [Record(f.id, VarintValue(x))]]
  {
    var f := env[nodes[i].typeName].names[key];
    TextCases(f, v, len);
    NameKnown(f, v, len);
    assert records[i] + [] == records[i] && records[i := records[i]] == records;
    hide NameNumber;
    hide ElidedText;
    hide TextRecords;
    hide PackedAdded;
    hide Shape;
    hide CString;
    hide Chars;
  }

  lemma NameKnown(f: Field, v: seq<byte>, len: nat)
    requires f.ptype == Enum && len <= |v|
    ensures ElidedText(f, v, len) <==> f.rule == Optional && v[..len] == CString(f.defaultText)
    ensures var name := Chars(CString(v[..len]));
            if name in f.values.ids then
              var k: int := f.values.ids[name];
              NameNumber(f, v, len) == Some(LongLong(if k >= 0 then k else 0x1_0000_0000 + k, 0))
            else NameNumber(f, v, len) == None
  {
    hide CString;
    hide Chars;
  }

  // ----- packed fields ---------------------------------------------------------------------------------

  /** In a packed field an int32 is its low word. */
  function SpelledPacked(ptype: PType, v: LongLong): seq<byte> {
    if ptype == Int32 then Varint(v.low) else Spelled(ptype, v)
  }

  function SpelledAll(ptype: PType, data: seq<LongLong>): seq<byte> {
    if data == [] then [] else SpelledAll(ptype, data[..|data| - 1]) + SpelledPacked(ptype, data[|data| - 1])
  }

  /** The record of a packed field: all its numbers in the order in which they were pushed, one behind the other. */
  lemma PackedSpelled(p: PackedField, was: seq<Record>)
    requires 0 < p.id < 0x1000_0000 && p.ptype !in {String, PType.Bytes, PType.Message, Group}
    ensures var b := SpelledAll(p.ptype, p.data);
            Encode(was + [PackedRecord(p)]) == Encode(was) + Varint(8 * p.id + 2) + Varint(|b|) + b
  {
    hide *;
    AllSpelled(p.ptype, p.data);
    PackedRecordIs(p);
    BytesSpelled(p.id, SpelledAll(p.ptype, p.data), was);
  }

  lemma PackedRecordIs(p: PackedField)
    requires p.id >= 0
    ensures PackedRecord(p) == Record(p.id, Payload.Bytes(PackedPayload(p.ptype, p.data)))
  {
    hide PackedPayload;
  }

  lemma {:induction false} AllSpelled(ptype: PType, data: seq<LongLong>)
    requires ptype !in {String, PType.Bytes, PType.Message, Group}
    ensures PackedPayload(ptype, data) == SpelledAll(ptype, data)
  {
    hide *;
    if data == [] {
      NothingSpelled(ptype);
    } else {
      AllSpelled(ptype, data[..|data| - 1]);
      PackedLast(ptype, data);
      OneSpelled(ptype, data[|data| - 1]);
      SpelledLast(ptype, data);
    }
  }

  lemma NothingSpelled(ptype: PType)
    ensures PackedPayload(ptype, []) == [] && SpelledAll(ptype, []) == []
  {
  }

  lemma SpelledLast(ptype: PType, data: seq<LongLong>)
    requires data != []
    ensures SpelledAll(ptype, data) == SpelledAll(ptype, data[..|data| - 1]) + SpelledPacked(ptype, data[|data| - 1])
  {
    hide SpelledPacked;
  }

  /** What one number adds to a packed field. */
  function Last(ptype: PType, v: LongLong): seq<byte> {
    if IsFixed64(ptype) then Bytes64(v)
    else if IsFixed32(ptype) then Bytes32(Sent(ptype, v).low)
    else ElementBytes(ptype, v)
  }

  lemma PackedLast(ptype: PType, data: seq<LongLong>)
    requires data != []
    ensures PackedPayload(ptype, data)
         == PackedPayload(ptype, data[..|data| - 1]) + Last(ptype, data[|data| - 1])
  {
    var n := |data| - 1;
    assert AllSent(ptype, data)[..n] == AllSent(ptype, data[..n]);
    hide ElementBytes;
    hide Bytes32;
    hide Bytes64;
    hide Sent;
  }

  lemma OneSpelled(ptype: PType, v: LongLong)
    requires ptype !in {String, PType.Bytes, PType.Message, Group}
    ensures Last(ptype, v) == SpelledPacked(ptype, v)
  {
    LittleIs(v.low);
    LittleIs(v.hi);
    LittleIs(Narrow(v));
    ZigZagIs(v);
    hide Varint;
    hide Narrow;
    hide ZigZag32;
    hide ZigZag64;
    hide Bytes32;
    hide Little;
  }

  // ----- whole messages ----------------------------------------------------------------------------------

  /** A finished message: what was written directly, then the packed fields, and then the sub-messages in the order of
      creation, each as tag, length and its own finished bytes. */
  lemma SubSpelled(nodes: seq<Node>, records: seq<seq<Record>>, i: nat, n: nat, was: seq<Record>)
    requires |records| == |nodes| && i < |nodes| && Downward(nodes) && FieldsOk(nodes) && n < |nodes[i].sub|
    ensures FinalRecords(nodes, records, i)
         == records[i] + PackedRecords(nodes[i].packed) + SubRecords(nodes, records, i, |nodes[i].sub|)
    ensures SubRecords(nodes, records, i, 0) == []
    ensures var s := nodes[i].sub[n];
            s.child < |nodes| && s.field.id >= 0
            && var b := Encode(FinalRecords(nodes, records, s.child));
               Encode(was + SubRecords(nodes, records, i, n + 1))
               == Encode(was + SubRecords(nodes, records, i, n)) + Varint(8 * s.field.id + 2) + Varint(|b|) + b
  {
    var s, rs := nodes[i].sub[n], SubRecords(nodes, records, i, n);
    var b := Encode(FinalRecords(nodes, records, s.child));
    assert SubRecords(nodes, records, i, n + 1) == rs + [Record(s.field.id, Payload.Bytes(b))];
    assert was + (rs + [Record(s.field.id, Payload.Bytes(b))]) == was + rs + [Record(s.field.id, Payload.Bytes(b))];
    BytesSpelled(s.field.id, b, was + rs);
    hide Encode;
    hide Varint;
  }

  // ----- what a reader makes of it -----------------------------------------------------------------------

  /** The number that a reader makes of two words. */
  function Heard(ptype: PType, v: LongLong): LongLong {
    match ptype
    case Enum => LongLong(v.low, 0)
    case Float => Widen(v.low)
    case SInt32 =>
      LongLong(if v.low % 2 == 0 then v.low / 2 else 0xFFFF_FFFF - v.low / 2,
               if v.low < 0x8000_0000 then 0 else 0xFFFF_FFFF)
    case SInt64 =>
      var n: u64 := v.low + 0x1_0000_0000 * v.hi;
      var r: u64 := if n % 2 == 0 then n / 2 else 0xFFFF_FFFF_FFFF_FFFF - n / 2;
      LongLong(r % 0x1_0000_0000, r / 0x1_0000_0000)
    case _ => v
  }

  lemma HeardIs(ptype: PType, v: LongLong)
    ensures Plain(ptype, v) == Heard(ptype, v)
    ensures Shown(ptype, [Raw(ptype, v)]) == [Heard(ptype, v)]
  {
    WordByWord(v);
    hide Widen;
    hide Dezigzag64;
  }

  lemma WordByWord(v: LongLong)
    ensures Dezigzag64(v) == Heard(SInt64, v)
  {
    var n := v.low + 0x1_0000_0000 * v.hi;
    var half := v.low / 2 + v.hi % 2 * 0x8000_0000 + 0x1_0000_0000 * (v.hi / 2);
    assert n % 2 == v.low % 2 && n / 2 == half;
    if n % 2 == 1 {
      RemainderUnique(0xFFFF_FFFF_FFFF_FFFF - half, 0x1_0000_0000, 0xFFFF_FFFF - v.hi / 2,
                      0xFFFF_FFFF - (v.low / 2 + v.hi % 2 * 0x8000_0000));
    } else {
      RemainderUnique(half, 0x1_0000_0000, v.hi / 2, v.low / 2 + v.hi % 2 * 0x8000_0000);
    }
  }

  /** What one atom gives a field that is not packed: a number of any wire type, but a text or a message only if
      it is length-delimited; a message that cannot be read leaves no gap in an array. */
  lemma AtomHeard(env: Env, f: Field, a: Atom, b: seq<byte>)
    requires |b| < 0x8000_0000 && f.rule != Label.Packed
    requires a.wireId % 8 == 2 ==> 2 <= a.low <= a.hi <= |b|
    ensures AtomValues(env, f, a, b)
         == match f.ptype
            case Group => []
            case String | Bytes => if a.wireId % 8 == 2 then [Text(b[a.low..a.hi])] else []
            case Message =>
              if a.wireId % 8 != 2 then []
              else (match Read(env, f.typeName, b[a.low..a.hi])
                    case Some(m) => [Value.Sub(m)]
                    case None => if f.rule == Repeated then [] else [Broken])
            case _ => [Number(Heard(f.ptype, LongLong(a.low, a.hi)))]
  {
    HeardIs(f.ptype, a.Number());
    hide Read;
    hide Unpacked;
    hide Plain;
    hide Heard;
  }

  /** The word of the given width at a place. */
  function WordAt(b: seq<byte>, at: nat, width: nat): LongLong
    requires (width == 4 || width == 8) && at + width <= |b|
  {
    LongLong(Word32(b[at..at + 4]), if width == 8 then Word32(b[at + 4..at + 8]) else 0)
  }

  /** The numbers of a packed field of eight-byte or four-byte words: all words of the slice, or, if they do not fill
      it, none, and a count of -1. */
  lemma WordsUnpacked(ptype: PType, b: seq<byte>, k: nat)
    requires Kind(ptype) == 1 || Kind(ptype) == 5
    ensures var width, r := if Kind(ptype) == 1 then 8 else 4, Shown(ptype, Unpacked(ptype, b));
            && |r| == (if |b| % width == 0 then |b| / width else 0)
            && UnpackedCount(ptype, b) == (if |b| % width == 0 then |r| else -1)
            && (k < |r| ==> width * k + width <= |b| && r[k] == Heard(ptype, WordAt(b, width * k, width)))
  {
    hide *;
    var width := if Kind(ptype) == 1 then 8 else 4;
    WidthIs(ptype, width, b);
    if |b| % width == 0 && k < |b| / width {
      WordsHeard(ptype, width, b, k);
      HeardIs(ptype, WordAt(b, width * k, width));
      ShownAt(ptype, FixedWords(ptype, width, b), k);
    }
  }

  lemma WidthIs(ptype: PType, width: nat, b: seq<byte>)
    requires (Kind(ptype) == 1 && width == 8) || (Kind(ptype) == 5 && width == 4)
    ensures Aligned(width, |b|) <==> |b| % width == 0
    ensures Unpacked(ptype, b) == if Aligned(width, |b|) then FixedWords(ptype, width, b) else []
    ensures UnpackedCount(ptype, b) == if Aligned(width, |b|) then |b| / width else -1
    ensures Aligned(width, |b|) ==> |FixedWords(ptype, width, b)| == |b| / width
  {
    hide FixedWords;
  }

  /** The numbers of a packed field of varints: as they come, up to the first that is cut short, and then the count
      is -1. Of texts and messages there are none. */
  lemma VarintsUnpacked(ptype: PType, b: seq<byte>)
    requires Kind(ptype) == 0 || Kind(ptype) == 2
    ensures ptype in {String, PType.Bytes, PType.Message, Group} ==>
              Unpacked(ptype, b) == [] && UnpackedCount(ptype, b) == -1
    ensures ptype !in {String, PType.Bytes, PType.Message, Group} ==>
              Shown(ptype, Unpacked(ptype, b))
              == (match ReadVarint(b)
                  case None => []
                  case Some((n, v)) => [Heard(ptype, v)] + Shown(ptype, Unpacked(ptype, b[n..])))
    ensures ptype !in {String, PType.Bytes, PType.Message, Group} ==>
              UnpackedCount(ptype, b)
              == if b == [] then 0
                 else match ReadVarint(b)
                      case None => -1
                      case Some((n, _)) => var m := UnpackedCount(ptype, b[n..]); if m < 0 then -1 else m + 1
  {
    hide *;
    VarintsAre(ptype, b);
    OneVarint(ptype, b);
    NothingShown(ptype);
    if ptype !in {String, PType.Bytes, PType.Message, Group} && ReadVarint(b).Some? {
      var (n, v) := ReadVarint(b).value;
      VarintsAre(ptype, b[n..]);
      HeardIs(ptype, v);
      ShownFirst(ptype, Raw(ptype, v), VarintNumbers(ptype, b[n..]));
    }
  }

  lemma VarintsAre(ptype: PType, b: seq<byte>)
    requires Kind(ptype) == 0 || Kind(ptype) == 2
    ensures if ptype in {String, PType.Bytes, PType.Message, Group} then
              Unpacked(ptype, b) == [] && UnpackedCount(ptype, b) == -1
            else
              && Unpacked(ptype, b) == VarintNumbers(ptype, b)
              && UnpackedCount(ptype, b) == if WholeVarints(b) then |VarintNumbers(ptype, b)| else -1
  {
    hide VarintNumbers;
    hide WholeVarints;
    hide FixedWords;
  }

  lemma OneVarint(ptype: PType, b: seq<byte>)
    ensures ReadVarint(b).None? ==> VarintNumbers(ptype, b) == [] && (WholeVarints(b) <==> b == [])
    ensures ReadVarint(b).Some? ==>
              var r := ReadVarint(b).value;
              && b != [] && VarintNumbers(ptype, b) == [Raw(ptype, r.1)] + VarintNumbers(ptype, b[r.0..])
              && (WholeVarints(b) <==> WholeVarints(b[r.0..]))
  {
    hide ReadVarint;
    hide Raw;
  }

  lemma NothingShown(ptype: PType)
    ensures Shown(ptype, []) == []
  {
  }

  lemma ShownAt(ptype: PType, s: seq<LongLong>, k: nat)
    requires k < |s|
    ensures |Shown(ptype, s)| == |s| && Shown(ptype, [s[k]]) == [Shown(ptype, s)[k]]
  {
  }

  lemma ShownFirst(ptype: PType, x: LongLong, s: seq<LongLong>)
    ensures Shown(ptype, [x] + s) == Shown(ptype, [x]) + Shown(ptype, s)
  {
  }

  lemma {:induction false} WordsHeard(ptype: PType, width: nat, b: seq<byte>, k: nat)
    requires (width == 4 || width == 8) && Aligned(width, |b|) && k < |b| / width
    ensures |FixedWords(ptype, width, b)| == |b| / width && width * k + width <= |b|
    ensures FixedWords(ptype, width, b)[k] == Raw(ptype, WordAt(b, width * k, width))
    decreases k
  {
    hide Raw;
    hide Word32;
    AlignedRest(width, |b|);
    var rest := b[width..];
    if k > 0 {
      WordsHeard(ptype, width, rest, k - 1);
      assert WordAt(rest, width * (k - 1), width) == WordAt(b, width * k, width) by { SameWord(b, width, k); }
    } else {
      assert b[..width][..4] == b[0..4];
      if width == 8 { assert b[..8][4..] == b[4..8]; }
    }
  }

  lemma SameWord(b: seq<byte>, width: nat, k: nat)
    requires (width == 4 || width == 8) && k > 0 && width * k + width <= |b|
    ensures width * (k - 1) + width <= |b[width..]|
    ensures WordAt(b[width..], width * (k - 1), width) == WordAt(b, width * k, width)
  {
    var at := width * (k - 1);
    assert b[width..][at..at + 4] == b[width * k..width * k + 4];
    if width == 8 { assert b[8..][at + 4..at + 8] == b[8 * k + 4..8 * k + 8]; }
    hide Word32;
  }

  // ----- what the getters give -----------------------------------------------------------------------------

  /** Of a repeated or packed field a getter gives the value at the place, of another one the first or the last;
      and it counts the values of the former. */
  lemma GivenSpelled(m: RMessage, key: string, at: nat, atHome: bool)
    requires key in m.index && m.index[key].values != []
    ensures var f, values := m.index[key].field, m.index[key].values;
            if f.rule == Repeated || f.rule == Label.Packed then
              SizeOf(m, key) == |values| && (at < |values| ==> Pick(m.index[key], at, atHome) == values[at])
            else
              && SizeOf(m, key) == 1
              && Pick(m.index[key], at, atHome) == values[if atHome then 0 else |values| - 1]
  {
  }

  /** For a key that is absent the getters give the default of the field, and zero if there is no such field. */
  lemma AbsentSpelled(t: MessageType, m: RMessage, key: string)
    requires key !in m.index
    ensures SizeOf(m, key) == 0
    ensures key !in t.names ==> DefaultNumber(t, key) == LongLong(0, 0) && DefaultText(t, key) == []
    ensures key in t.names ==>
              var f := t.names[key];
              && DefaultNumber(t, key) == LongLong(f.default.low, if f.ptype == Enum then 0 else f.default.hi)
              && DefaultText(t, key) == f.defaultText
  {
  }
}
