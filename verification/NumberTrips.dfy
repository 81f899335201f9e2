/** Numbers that go through the wire format and come back: what varint.c, wmessage.c and
    pattern.c (lualib-src/pbc/src) encode and pattern.c and rmessage.c decode. */
module NumberTrips {
  import opened Words
  import opened Varints
  import opened Wire
  import opened Schemas
  import opened PackedArrays
  import opened Reals
  import opened Writers

  /** The high word that `_pbcV_dezigzag32` makes up. */
  function SignWord(n: u32): u32 { Dezigzag32(LongLong(ZigZag32(n), 0)).hi }

  lemma SignWordIs(n: u32)
    ensures SignWord(n) == if 0x4000_0000 <= n < 0xC000_0000 then 0xFFFF_FFFF else 0
  {
  }

  /** What a reader sees of a number written to a field that is not packed: both words, the low word of
      the types of 32 bits, or the nearest float. */
  function Seen(ptype: PType, v: LongLong): LongLong {
    match ptype
    case UInt32 | Enum | Bool | Fixed32 | SFixed32 => LongLong(v.low, 0)
    case Float => Widen(Narrow(v))
    case SInt32 => LongLong(v.low, SignWord(v.low))
    case _ => v
  }

  /** In a packed field a number of type int32, too, keeps its low word only. */
  function PackedSeen(ptype: PType, v: LongLong): LongLong {
    if ptype == Int32 then LongLong(v.low, 0) else Seen(ptype, v)
  }

  function AllSeen(ptype: PType, data: seq<LongLong>): (r: seq<LongLong>)
    ensures |r| == |data| && forall k :: 0 <= k < |data| ==> r[k] == PackedSeen(ptype, data[k])
  {
    seq(|data|, k requires 0 <= k < |data| => PackedSeen(ptype, data[k]))
  }

  lemma PlainOfZigZag(v: LongLong)
    ensures Raw(SInt64, Halves(ZigZag64(Join(v)))) == v
    ensures Halves(ZigZag32(v.low)) == LongLong(ZigZag32(v.low), 0)
    ensures Raw(SInt32, Halves(ZigZag32(v.low))) == LongLong(v.low, SignWord(v.low))
  {
    DezigzagZigzag64(Join(v));
    DezigzagZigzag32(v.low, 0);
    HalvesJoin(v);
    HalvesJoin(Dezigzag64(Halves(ZigZag64(Join(v)))));
    hide Dezigzag64;
    hide ZigZag64;
    hide Join;
    SmallHalves(ZigZag32(v.low));
    hide ZigZag32;
    hide Halves;
  }

  /** Packed data as read. */
  lemma ElementComesBack(ptype: PType, v: LongLong, rest: seq<byte>)
    requires IsVarint(ptype)
    ensures VarintNumbers(ptype, ElementBytes(ptype, v) + rest) == [PackedSeen(ptype, v)] + VarintNumbers(ptype, rest)
  {
    var n := CodeOf(ptype, v);
    CodeComesBack(ptype, v);
    hide *;
    ReadEncoded(n, rest);
    assert (Varint(n) + rest)[|Varint(n)|..] == rest;
    OneNumberOf(ptype, Varint(n) + rest);
  }

  /** What is encoded for an element. */
  function CodeOf(ptype: PType, v: LongLong): u64 {
    match ptype
    case Int64 | UInt64 => Join(v)
    case Int32 | Bool | UInt32 | Enum => v.low
    case SInt32 => ZigZag32(v.low)
    case _ => ZigZag64(Join(v))
  }

  lemma CodeComesBack(ptype: PType, v: LongLong)
    requires IsVarint(ptype)
    ensures ElementBytes(ptype, v) == Varint(CodeOf(ptype, v))
    ensures Raw(ptype, Halves(CodeOf(ptype, v))) == PackedSeen(ptype, v)
  {
    HalvesJoin(v);
    SmallHalves(v.low);
    PlainOfZigZag(v);
    hide Join;
    hide Halves;
    hide ZigZag64;
    hide ZigZag32;
    hide SignWord;
    hide Dezigzag32;
    hide Dezigzag64;
    hide Varint;
  }

  lemma OneNumberOf(ptype: PType, b: seq<byte>)
    requires b != [] && ReadVarint(b).Some?
    ensures VarintNumbers(ptype, b)
            == [Raw(ptype, ReadVarint(b).value.1)] + VarintNumbers(ptype, b[ReadVarint(b).value.0..])
  {
    hide ReadVarint;
    hide Raw;
  }

  lemma {:induction false} PayloadFront(ptype: PType, data: seq<LongLong>)
    requires data != []
    ensures VarintPayload(ptype, data) == ElementBytes(ptype, data[0]) + VarintPayload(ptype, data[1..])
  {
    hide ElementBytes;
    var n := |data| - 1;
    if n > 0 {
      PayloadFront(ptype, data[..n]);
      assert data[..n][1..] == data[1..][..n - 1];
    }
  }

  lemma {:induction false} VarintsComeBack(ptype: PType, data: seq<LongLong>)
    requires IsVarint(ptype)
    ensures VarintNumbers(ptype, VarintPayload(ptype, data)) == AllSeen(ptype, data)
  {
    hide *;
    if data != [] {
      PayloadFront(ptype, data);
      ElementComesBack(ptype, data[0], VarintPayload(ptype, data[1..]));
      VarintsComeBack(ptype, data[1..]);
      assert AllSeen(ptype, data) == [PackedSeen(ptype, data[0])] + AllSeen(ptype, data[1..]);
    } else {
      NoVarints(ptype);
    }
  }

  lemma NoVarints(ptype: PType)
    ensures VarintPayload(ptype, []) == [] && VarintNumbers(ptype, []) == []
  {
  }

  lemma {:induction false} FixedFront(data: seq<LongLong>)
    requires data != []
    ensures FixedPayload(data) == Bytes64(data[0]) + FixedPayload(data[1..])
  {
    hide Bytes64;
    var n := |data| - 1;
    if n > 0 {
      FixedFront(data[..n]);
      assert data[..n][1..] == data[1..][..n - 1];
    }
  }

  lemma WordComesBack(v: LongLong)
    ensures FixedWord(Bytes64(v)) == v && FixedWord(Bytes32(v.low)) == LongLong(v.low, 0)
  {
    WordOfBytes(v.low);
    WordOfBytes(v.hi);
    hide Bytes32;
    hide Word32;
    assert Bytes64(v)[..4] == Bytes32(v.low) && Bytes64(v)[4..] == Bytes32(v.hi);
    assert Bytes32(v.low)[..4] == Bytes32(v.low);
  }

  lemma {:induction false} FixedComeBack(ptype: PType, data: seq<LongLong>)
    requires IsFixed64(ptype)
    ensures FixedWords(ptype, 8, FixedPayload(data)) == data
  {
    hide Bytes64;
    hide FixedWord;
    hide Raw;
    if data != [] {
      FixedFront(data);
      FixedComeBack(ptype, data[1..]);
      WordComesBack(data[0]);
      RawWide(ptype, data[0]);
      var b := FixedPayload(data);
      assert b[..8] == Bytes64(data[0]) && b[8..] == FixedPayload(data[1..]);
    }
  }

  lemma {:induction false} NarrowFront(data: seq<LongLong>)
    requires data != []
    ensures NarrowPayload(data) == Bytes32(data[0].low) + NarrowPayload(data[1..])
  {
    hide Bytes32;
    var n := |data| - 1;
    if n > 0 {
      NarrowFront(data[..n]);
      assert data[..n][1..] == data[1..][..n - 1];
    }
  }

  lemma {:induction false} NarrowComeBack(ptype: PType, data: seq<LongLong>)
    requires IsFixed32(ptype)
    ensures FixedWords(ptype, 4, NarrowPayload(AllSent(ptype, data))) == AllSeen(ptype, data)
  {
    hide *;
    if data == [] {
      NothingNarrow(ptype, data);
      return;
    }
    var sent, rest := AllSent(ptype, data), AllSent(ptype, data[1..]);
    assert sent[1..] == rest;
    NarrowFront(sent);
    NarrowComeBack(ptype, data[1..]);
    WordComesBack(sent[0]);
    SeenNarrow(ptype, data[0]);
    FirstWord(ptype, Bytes32(sent[0].low), NarrowPayload(rest), |rest|);
    assert AllSeen(ptype, data) == [PackedSeen(ptype, data[0])] + AllSeen(ptype, data[1..]);
  }

  lemma NothingNarrow(ptype: PType, data: seq<LongLong>)
    requires data == []
    ensures FixedWords(ptype, 4, NarrowPayload(AllSent(ptype, data))) == AllSeen(ptype, data)
  {
    assert AllSent(ptype, data) == [];
  }

  lemma FirstWord(ptype: PType, word: seq<byte>, rest: seq<byte>, n: nat)
    requires |word| == 4 && |rest| == 4 * n
    ensures Aligned(4, |rest|) && Aligned(4, |word + rest|)
    ensures FixedWords(ptype, 4, word + rest) == [Raw(ptype, FixedWord(word))] + FixedWords(ptype, 4, rest)
  {
    assert (word + rest)[..4] == word && (word + rest)[4..] == rest;
    hide Raw;
    hide FixedWord;
  }

  lemma WideComeBack(ptype: PType, data: seq<LongLong>)
    requires IsFixed64(ptype)
    ensures FixedWords(ptype, 8, FixedPayload(data)) == AllSeen(ptype, data)
  {
    FixedComeBack(ptype, data);
    forall k | 0 <= k < |data| ensures PackedSeen(ptype, data[k]) == data[k] { SeenWide(ptype, data[k]); }
    hide PackedSeen;
    hide FixedPayload;
    hide FixedWords;
  }

  /** The numbers of a packed field come back, all of them and in order. */
  lemma PackedComesBack(ptype: PType, data: seq<LongLong>)
    ensures Unpacked(ptype, PackedPayload(ptype, data))
         == if IsNumeric(ptype) then AllSeen(ptype, data) else []
  {
    hide AllSeen;
    hide FixedPayload;
    hide FixedWords;
    hide NarrowPayload;
    hide VarintPayload;
    hide VarintNumbers;
    if IsFixed64(ptype) {
      WideComeBack(ptype, data);
    } else if IsFixed32(ptype) {
      NarrowComeBack(ptype, data);
    } else if IsVarint(ptype) {
      VarintsComeBack(ptype, data);
    }
  }

  lemma SeenWide(ptype: PType, v: LongLong)
    requires IsFixed64(ptype)
    ensures PackedSeen(ptype, v) == v
  {
  }

  lemma RawWide(ptype: PType, v: LongLong)
    requires IsFixed64(ptype)
    ensures Raw(ptype, v) == v
  {
  }

  lemma SeenNarrow(ptype: PType, v: LongLong)
    requires IsFixed32(ptype)
    ensures PackedSeen(ptype, v) == Raw(ptype, LongLong(Sent(ptype, v).low, 0))
  {
    hide Narrow;
    hide Widen;
  }

  /** The two words that the parser makes of a number. */
  function PayloadNumber(p: Payload): LongLong {
    match p
    case VarintValue(n) => Halves(n)
    case Fixed64Value(w) => w
    case Fixed32Value(n) => LongLong(n, 0)
    case Bytes(_) => LongLong(0, 0)
  }

  lemma PayloadComesBack(ptype: PType, v: LongLong)
    requires NumberPayload(ptype, v).Some?
    ensures Raw(ptype, PayloadNumber(NumberPayload(ptype, v).value)) == Seen(ptype, v)
    ensures !NumberPayload(ptype, v).value.Bytes?
  {
    HalvesJoin(v);
    SmallHalves(v.low);
    PlainOfZigZag(v);
    hide Join;
    hide Halves;
    hide ZigZag64;
    hide ZigZag32;
    hide SignWord;
    hide Dezigzag32;
    hide Dezigzag64;
  }

  /** The same for any number, doubles and floats included. */
  lemma ValueComesBack(ptype: PType, v: LongLong)
    requires ValuePayload(ptype, v).Some?
    ensures Raw(ptype, PayloadNumber(ValuePayload(ptype, v).value)) == Seen(ptype, v)
    ensures !ValuePayload(ptype, v).value.Bytes?
  {
    if ptype != Double && ptype != Float { PayloadComesBack(ptype, v); }
    hide Narrow;
    hide Widen;
    hide NumberPayload;
    hide SignWord;
  }

  lemma {:induction false} WholePayload(ptype: PType, data: seq<LongLong>)
    requires IsVarint(ptype)
    ensures WholeVarints(VarintPayload(ptype, data))
  {
    hide ElementBytes;
    if data != [] {
      PayloadFront(ptype, data);
      WholePayload(ptype, data[1..]);
      WholeElement(ptype, data[0], VarintPayload(ptype, data[1..]));
    }
  }

  lemma WholeElement(ptype: PType, v: LongLong, rest: seq<byte>)
    requires IsVarint(ptype)
    ensures WholeVarints(ElementBytes(ptype, v) + rest) == WholeVarints(rest)
  {
    var n := match ptype
             case Int64 | UInt64 => Join(v)
             case Int32 | Bool | UInt32 | Enum => v.low
             case SInt32 => ZigZag32(v.low)
             case _ => ZigZag64(Join(v));
    ReadEncoded(n, rest);
    assert ElementBytes(ptype, v) == Varint(n);
    hide ElementBytes;
    hide Varint;
    hide ReadVarint;
    assert (Varint(n) + rest)[|Varint(n)|..] == rest;
  }

  /** The bytes of a packed field end where a number ends. */
  predicate EndsWhole(ptype: PType, b: seq<byte>) { !IsNumeric(ptype) || FixedWidth(ptype) > 0 || WholeVarints(b) }

  lemma PackedIsWhole(ptype: PType, data: seq<LongLong>)
    ensures EndsWhole(ptype, PackedPayload(ptype, data))
  {
    var b := PackedPayload(ptype, data);
    Kinds(ptype, data);
    hide *;
    if IsVarint(ptype) { WholePayload(ptype, data); }
    EndsIs(ptype, b);
  }

  lemma Kinds(ptype: PType, data: seq<LongLong>)
    ensures IsNumeric(ptype) && FixedWidth(ptype) == 0 ==> IsVarint(ptype)
    ensures IsVarint(ptype) ==> PackedPayload(ptype, data) == VarintPayload(ptype, data)
  {
    hide VarintPayload;
    hide FixedPayload;
    hide NarrowPayload;
  }

  lemma EndsIs(ptype: PType, b: seq<byte>)
    ensures EndsWhole(ptype, b) <==> !IsNumeric(ptype) || FixedWidth(ptype) > 0 || WholeVarints(b)
  {
    hide WholeVarints;
  }
}
