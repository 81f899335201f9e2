/** Packing the members of a C struct into a slice (lualib-src/pbc/src/pattern.c). */
module Patterns {
  import opened Words
  import opened Varints
  import opened Wire
  import opened Schemas
  import opened Writers
  import opened Reals

  /** `CTYPE_*` */
  datatype CType = CInt32 | CInt64 | CBool | CInt8 | CInt16 | CDouble | CFloat | CArray | CVar | CPacked

  /** `struct _pattern_field`. The default is the two words of the union, or the text that the schema gives;
      a message has none, and its length in the union is whatever it was. The member that a field describes has
      the field's own place in the list of members. */
  datatype PatternField = PatternField(
    id: int, ptype: PType, ctype: CType, rule: Label, default: LongLong, defaultText: seq<byte>, defaultLen: int)

  /** `union _pbc_var`, a double by its bits, as an array holds it, or a `struct pbc_slice` member. */
  datatype Var = Number(v: LongLong) | Text(buffer: Option<seq<byte>>, len: int)

  /** A member of the struct: a number of the width its C type has, floating ones by their bits, a slice or
      an array. */
  datatype Slot = Scalar(n: u64) | Single(v: Var) | Array(items: seq<Var>)

  predicate IsText(ptype: PType) { ptype in {String, PType.Bytes, Message} }

  predicate IsReal(ptype: PType) { ptype in {Double, Float} }

  predicate IsNumber(ptype: PType) { IsVarint(ptype) || IsFixed64(ptype) || IsFixed32(ptype) }

  function Limit(ctype: CType): nat {
    match ctype
    case CInt8 => 0x100
    case CInt16 => 0x1_0000
    case CInt32 => 0x1_0000_0000
    case CFloat => 0x1_0000_0000
    case CBool => 2
    case _ => 0x1_0000_0000_0000_0000
  }

  /** Memory that the packer may read: `len` bytes, or a string that ends, and `-len` more. */
  predicate TextFits(ptype: PType, v: Var) {
    && v.Text?
    && match v.buffer
       case None => v.len == 0
       case Some(b) =>
         && -0x4000_0000 < v.len && |b| < 0x4000_0000
         && if v.len >= 0 then v.len <= |b| else ptype == String && CString(b) != b && |CString(b)| - v.len <= |b|
  }

  /** Memory that the comparison with the default may read. */
  predicate DefaultReadable(pf: PatternField, v: Var)
    requires v.Text?
  {
    pf.ptype == String && v.buffer.Some? ==>
      var b := v.buffer.value;
      if v.len <= 0 then CString(b) != b else v.len == |pf.defaultText| ==> v.len <= |b|
  }

  predicate VarFits(ptype: PType, v: Var) { if IsText(ptype) then TextFits(ptype, v) else v.Number? }

  /** The C types for a number that is not in an array. */
  function ScalarTypes(ptype: PType): set<CType> {
    if IsReal(ptype) then {CDouble, CFloat} else {CInt32, CInt64, CBool, CInt8, CInt16}
  }

  /** A member of the kind that `_check_ctype` lets through for the field. */
  predicate SlotFits(pf: PatternField, slot: Slot) {
    && 0 < pf.id < 0x1000_0000 && (IsText(pf.ptype) || IsNumber(pf.ptype))
    && match pf.rule
       case Repeated => pf.ctype == CArray && slot.Array? && forall v <- slot.items :: VarFits(pf.ptype, v)
       case Packed =>
         && pf.ctype == CPacked && slot.Array? && IsNumber(pf.ptype) && 10 * |slot.items| < 0x8000_0000
         && forall v <- slot.items :: v.Number?
       case _ =>
         if IsText(pf.ptype) then
           && pf.ctype == CVar && slot.Single? && slot.v.Text?
           && (pf.rule == Optional ==> DefaultReadable(pf, slot.v))
           && (!(pf.rule == Optional && IsDefault(pf, slot)) ==> TextFits(pf.ptype, slot.v))
         else pf.ctype in ScalarTypes(pf.ptype) && slot.Scalar? && slot.n < Limit(pf.ctype)
  }

  predicate Fits(pat: seq<PatternField>, input: seq<Slot>) {
    |input| == |pat| && forall k :: 0 <= k < |pat| ==> SlotFits(pat[k], input[k])
  }

  // ----- what is packed ------------------------------------------------------------------

  /** The number that a member holds, as the union does. */
  function Load(ctype: CType, n: u64): LongLong
    requires n < Limit(ctype)
  {
    if ctype == CInt64 || ctype == CDouble then Halves(n)
    else if ctype == CFloat then Widen(n)
    else LongLong(n % 0x1_0000_0000, 0)
  }

  /** `_is_default` */
  predicate IsDefault(pf: PatternField, slot: Slot) {
    match slot
    case Scalar(n) =>
      (match pf.ctype
       case CInt64 => Join(pf.default) == n
       case CDouble => SameReal(pf.default, Halves(n))
       case CFloat => n < 0x1_0000_0000 && SameFloat(Narrow(pf.default), n)
       case CInt32 => pf.default.low == n
       case CInt16 => pf.default.low % 0x1_0000 == n
       case CInt8 => pf.default.low % 0x100 == n
       case CBool => (pf.default.low != 0) == (n != 0)
       case _ => false)
    case Single(Text(None, _)) =>
      if pf.ptype == String then CString(pf.defaultText) == [] else pf.ptype == PType.Bytes
    case Single(Text(Some(b), len)) =>
      pf.ptype == String
      && if len <= 0 then CString(pf.defaultText) == CString(b)
         else len == |pf.defaultText| && len <= |b| && pf.defaultText == b[..len]
    case _ => false
  }

  function TextBytes(v: Var): seq<byte>
    requires v.Text? && TextFits(String, v)
  {
    match v.buffer
    case None => []
    case Some(b) => if v.len >= 0 then b[..v.len] else b[..|CString(b)| - v.len]
  }

  /** The records of one value. */
  function VarRecords(pf: PatternField, v: Var): seq<Record>
    requires pf.id >= 0 && VarFits(pf.ptype, v)
  {
    if v.Text? then (if IsText(pf.ptype) then [Record(pf.id, Payload.Bytes(TextBytes(v)))] else [])
    else match ValuePayload(pf.ptype, v.v) case None => [] case Some(p) => [Record(pf.id, p)]
  }

  function ItemRecords(pf: PatternField, items: seq<Var>): seq<Record>
    requires pf.id >= 0 && forall v <- items :: VarFits(pf.ptype, v)
  {
    if items == [] then [] else ItemRecords(pf, items[..|items| - 1]) + VarRecords(pf, items[|items| - 1])
  }

  function NumbersOf(items: seq<Var>): (r: seq<LongLong>)
    requires forall v <- items :: v.Number?
    ensures |r| == |items| && forall k :: 0 <= k < |items| ==> r[k] == items[k].v
  {
    seq(|items|, k requires 0 <= k < |items| => items[k].v)
  }

  /** Unlike a message writer, a pattern packs both words of a packed int32. */
  function Widened(ptype: PType): PType { if ptype == Int32 then Int64 else ptype }

  function PatternPayload(ptype: PType, data: seq<LongLong>): seq<byte> { PackedPayload(Widened(ptype), data) }

  /** The records of one member. */
  function FieldRecords(pf: PatternField, slot: Slot): seq<Record>
    requires SlotFits(pf, slot)
  {
    match pf.rule
    case Repeated => ItemRecords(pf, slot.items)
    case Packed =>
      if slot.items == [] then []
      else [Record(pf.id, Payload.Bytes(PatternPayload(pf.ptype, NumbersOf(slot.items))))]
    case _ =>
      if pf.rule == Optional && IsDefault(pf, slot) then []
      else VarRecords(pf, if slot.Scalar? then Number(Load(pf.ctype, slot.n)) else slot.v)
  }

  /** The room that a member needs. The length of a packed field of fixed width is asked for
      twice. */
  function FieldNeed(pf: PatternField, slot: Slot): nat
    requires SlotFits(pf, slot)
  {
    |Encode(FieldRecords(pf, slot))|
    + if pf.rule == Packed && slot.items != [] && (IsFixed64(pf.ptype) || IsFixed32(pf.ptype)) then
        |Varint(|PatternPayload(pf.ptype, NumbersOf(slot.items))|)|
      else 0
  }

  function PatternRecords(pat: seq<PatternField>, input: seq<Slot>): seq<Record>
    requires Fits(pat, input)
  {
    if pat == [] then []
    else
      var n := |pat| - 1;
      PatternRecords(pat[..n], input[..n]) + FieldRecords(pat[n], input[n])
  }

  function Max(a: nat, b: nat): nat { if a < b then b else a }

  function PatternNeed(pat: seq<PatternField>, input: seq<Slot>): nat
    requires Fits(pat, input)
  {
    if pat == [] then 0
    else
      var n := |pat| - 1;
      Max(PatternNeed(pat[..n], input[..n]),
          |Encode(PatternRecords(pat[..n], input[..n]))| + FieldNeed(pat[n], input[n]))
  }

  // ----- one step over a slice ---------------------------------------------------------------

  /** From the slice of `len` bytes at `at`: `bytes` are written if there is room for `need`, and
      nothing outside the slice is touched in any case. */
  ghost predicate Step(was: seq<byte>, now: seq<byte>, at: nat, len: nat, at': nat, len': nat,
                       ok: bool, bytes: seq<byte>, need: nat)
  {
    && at + len <= |was| == |now| && at' + len' == at + len && at <= at'
    && now[..at] == was[..at] && now[at + len..] == was[at + len..]
    && |bytes| <= need && (ok <==> need <= len)
    && (ok ==> at' == at + |bytes| && now[at..at'] == bytes)
  }

  lemma StepNothing(was: seq<byte>, at: nat, len: nat)
    requires at + len <= |was|
    ensures Step(was, was, at, len, at, len, true, [], 0)
  {
  }

  lemma StepThen(was: seq<byte>, mid: seq<byte>, now: seq<byte>, at: nat, len: nat, at1: nat, len1: nat,
                 at2: nat, len2: nat, ok: bool, b1: seq<byte>, n1: nat, b2: seq<byte>, n2: nat)
    requires Step(was, mid, at, len, at1, len1, true, b1, n1)
    requires Step(mid, now, at1, len1, at2, len2, ok, b2, n2)
    ensures Step(was, now, at, len, at2, len2, ok, b1 + b2, Max(n1, |b1| + n2))
  {
    assert now[..at] == now[..at1][..at] == mid[..at1][..at] == mid[..at];
    if ok {
      assert now[at..at1] == now[..at1][at..] == mid[..at1][at..] == mid[at..at1];
      assert now[at..at2] == now[at..at1] + now[at1..at2];
    }
  }

  lemma StepFailed(was: seq<byte>, now: seq<byte>, at: nat, len: nat, at1: nat, len1: nat,
                   b1: seq<byte>, n1: nat, b2: seq<byte>, n2: nat)
    requires Step(was, now, at, len, at1, len1, false, b1, n1) && |b2| <= n2
    ensures Step(was, now, at, len, at1, len1, false, b1 + b2, Max(n1, |b1| + n2))
  {
  }

  lemma WriteStep(was: seq<byte>, now: seq<byte>, at: nat, len: nat, b: seq<byte>)
    requires at + len <= |was| && |b| <= len && now == Splice(was, at, b)
    ensures Step(was, now, at, len, at + |b|, len - |b|, true, b, |b|)
  {
    assert now[at..at + |b|] == b;
    assert now[..at] == was[..at];
    assert now[at + len..] == was[at + len..];
  }

  lemma {:induction false} LongerNumber(m: nat, n: nat)
    requires m <= n
    ensures |Varint(m)| <= |Varint(n)|
  {
    LengthOfVarint(n);
    VarintWidth(m, |Varint(n)|);
  }

  /** `struct pbc_slice` over part of a buffer. */
  class Slice {
    const buffer: array<byte>
    var at: nat
    var len: nat

    ghost predicate Valid()
      reads this
    {
      at + len <= buffer.Length
    }

    constructor (buffer: array<byte>, at: nat, len: nat)
      ensures this.buffer == buffer && this.at == at && this.len == len
    {
      this.buffer, this.at, this.len := buffer, at, len;
    }

    method Put(b: seq<byte>)
      requires Valid() && |b| <= len
      modifies this, buffer
      ensures Valid()
      ensures Step(old(buffer[..]), buffer[..], old(at), old(len), at, len, true, b, |b|)
    {
      ghost var was := buffer[..];
      forall i | 0 <= i < |b| { buffer[at + i] := b[i]; }
      assert buffer[..] == Splice(was, at, b);
      WriteStep(was, buffer[..], at, len, b);
      at, len := at + |b|, len - |b|;
    }

    /** `_pack_wiretype`: short slices are written by way of a scratch buffer. */
    method PackWiretype(wt: u32) returns (r: int)
      requires Valid()
      modifies this, buffer
      ensures Valid() && r == if |Varint(wt)| <= old(len) then |Varint(wt)| else -1
      ensures Step(old(buffer[..]), buffer[..], old(at), old(len), at, len, r >= 0, Varint(wt), |Varint(wt)|)
    {
      hide Varint;
      Widths(wt);
      if len < 10 {
        var temp := new byte[10];
        r := Encode32(wt, temp, 0);
        if r > len { return -1; }
        assert temp[..r] == temp[..][..r] == Varint(wt);
        Put(temp[..r]);
      } else {
        ghost var was := buffer[..];
        r := Encode32(wt, buffer, at);
        WriteStep(was, buffer[..], at, len, Varint(wt));
        at, len := at + r, len - r;
      }
    }

    /** `_pack_varint64` */
    method PackVarint64(n: u64) returns (r: int)
      requires Valid()
      modifies this, buffer
      ensures Valid() && r == if |Varint(n)| <= old(len) then |Varint(n)| else -1
      ensures Step(old(buffer[..]), buffer[..], old(at), old(len), at, len, r >= 0, Varint(n), |Varint(n)|)
    {
      hide Varint;
      Widths(n);
      if len < 10 {
        var temp := new byte[10];
        r := Encode64(n, temp, 0);
        if r > len { return -1; }
        assert temp[..r] == temp[..][..r] == Varint(n);
        Put(temp[..r]);
      } else {
        ghost var was := buffer[..];
        r := Encode64(n, buffer, at);
        WriteStep(was, buffer[..], at, len, Varint(n));
        at, len := at + r, len - r;
      }
    }

    /** `_pack_number` */
    method PackNumber(ptype: PType, v: LongLong) returns (r: int)
      requires Valid() && IsNumber(ptype)
      modifies this, buffer
      ensures Valid() && ValuePayload(ptype, v).Some?
      ensures var b := PayloadBytes(ValuePayload(ptype, v).value);
              && r == (if |b| <= old(len) then |b| else -1)
              && Step(old(buffer[..]), buffer[..], old(at), old(len), at, len, r >= 0, b, |b|)
    {
      hide Varint;
      hide Bytes32;
      match ptype {
        case Fixed64 | SFixed64 | Double =>
          if len < 8 { return -1; }
          Put(Bytes64(v));
          return 8;
        case Fixed32 | SFixed32 =>
          if len < 4 { return -1; }
          Put(Bytes32(v.low));
          return 4;
        case Float =>
          if len < 4 { return -1; }
          Put(Bytes32(Narrow(v)));
          return 4;
        case UInt64 | Int64 | Int32 => r := PackVarint64(Join(v));
        case UInt32 | Bool | Enum => r := PackWiretype(v.low);
        case SInt32 => r := PackWiretype(ZigZag32(v.low));
        case SInt64 => r := PackVarint64(ZigZag64(Join(v)));
      }
    }

    /** `_pack_field` for one value. */
    method PackField(pf: PatternField, v: Var) returns (r: int)
      requires Valid() && 0 < pf.id < 0x1000_0000 && VarFits(pf.ptype, v) && (IsText(pf.ptype) || IsNumber(pf.ptype))
      modifies this, buffer
      ensures Valid()
      ensures var b := Encode(VarRecords(pf, v));
              && (r >= 0 ==> r == |b|)
              && Step(old(buffer[..]), buffer[..], old(at), old(len), at, len, r >= 0, b, |b|)
    {
      hide Varint;
      VarEncoding(pf, v);
      if IsText(pf.ptype) {
        r := PackText(pf.id, v);
      } else {
        r := PackInteger(pf, v.v);
      }
    }

    /** The part of `_pack_field` behind `_string`. */
    method PackText(id: nat, v: Var) returns (r: int)
      requires Valid() && 0 < id < 0x1000_0000 && v.Text? && TextFits(String, v)
      modifies this, buffer
      ensures Valid()
      ensures var b := Varint(8 * id + WT_LEND) + Varint(|TextBytes(v)|) + TextBytes(v);
              && (r >= 0 ==> r == |b|)
              && Step(old(buffer[..]), buffer[..], old(at), old(len), at, len, r >= 0, b, |b|)
    {
      ghost var was, at0, len0 := buffer[..], at, len;
      var text := TextBytes(v);
      assert |text| < 0x8000_0000;
      hide Varint;
      hide TextBytes;
      var b1, b2 := Varint(8 * id + WT_LEND), Varint(|text|);
      r := PackWiretype(8 * id + WT_LEND);
      ghost var mid, at1, len1 := buffer[..], at, len;
      if r < 0 {
        StepFailed(was, mid, at0, len0, at, len, b1, |b1|, b2, |b2|);
        StepFailed(was, mid, at0, len0, at, len, b1 + b2, |b1 + b2|, text, |text|);
        return;
      }
      var header := PackWiretype(|text|);
      StepThen(was, mid, buffer[..], at0, len0, at1, len1, at, len, header >= 0, b1, |b1|, b2, |b2|);
      ghost var mid2, at2, len2 := buffer[..], at, len;
      if header < 0 {
        StepFailed(was, mid2, at0, len0, at, len, b1 + b2, |b1 + b2|, text, |text|);
        return -1;
      }
      if |text| > len { return -1; }
      Put(text);
      StepThen(was, mid2, buffer[..], at0, len0, at2, len2, at, len, true, b1 + b2, |b1 + b2|, text, |text|);
      r := r + header + |text|;
    }

    /** The part of `_pack_field` behind `_number`. */
    method PackInteger(pf: PatternField, v: LongLong) returns (r: int)
      requires Valid() && 0 < pf.id < 0x1000_0000 && IsNumber(pf.ptype)
      modifies this, buffer
      ensures Valid() && ValuePayload(pf.ptype, v).Some?
      ensures var b := RecordBytes(Record(pf.id, ValuePayload(pf.ptype, v).value));
              && (r >= 0 ==> r == |b|)
              && Step(old(buffer[..]), buffer[..], old(at), old(len), at, len, r >= 0, b, |b|)
    {
      ghost var was, at0, len0 := buffer[..], at, len;
      var p := ValuePayload(pf.ptype, v).value;
      var tag := 8 * pf.id + WireTypeOf(p);
      hide Varint;
      hide PayloadBytes;
      hide ValuePayload;
      var b1, b2 := Varint(tag), PayloadBytes(p);
      r := PackWiretype(tag);
      ghost var mid, at1, len1 := buffer[..], at, len;
      if r < 0 {
        StepFailed(was, mid, at0, len0, at, len, b1, |b1|, b2, |b2|);
        return;
      }
      var n := PackNumber(pf.ptype, v);
      StepThen(was, mid, buffer[..], at0, len0, at1, len1, at, len, n >= 0, b1, |b1|, b2, |b2|);
      if n < 0 { return -1; }
      r := r + n;
    }

    /** `_pack_repeated` */
    method PackRepeated(pf: PatternField, items: seq<Var>) returns (r: int)
      requires Valid() && 0 < pf.id < 0x1000_0000 && (IsText(pf.ptype) || IsNumber(pf.ptype))
      requires forall v <- items :: VarFits(pf.ptype, v)
      modifies this, buffer
      ensures Valid()
      ensures var b := Encode(ItemRecords(pf, items));
              && (r >= 0 ==> r == |b|)
              && Step(old(buffer[..]), buffer[..], old(at), old(len), at, len, r >= 0, b, |b|)
    {
      hide VarFits;
      hide VarRecords;
      ghost var was, at0, len0 := buffer[..], at, len;
      StepNothing(was, at, len);
      ItemsEnd(pf, items);
      r := 0;
      for i := 0 to |items|
        invariant Valid() && r == |Encode(ItemRecords(pf, items[..i]))|
        invariant Step(was, buffer[..], at0, len0, at, len, true, Encode(ItemRecords(pf, items[..i])), r)
      {
        ghost var mid, at1, len1 := buffer[..], at, len;
        ghost var b1, b2 := Encode(ItemRecords(pf, items[..i])), Encode(VarRecords(pf, items[i]));
        ItemsStep(pf, items, i);
        hide Step;
        var n := PackField(pf, items[i]);
        StepThen(was, mid, buffer[..], at0, len0, at1, len1, at, len, n >= 0, b1, |b1|, b2, |b2|);
        if n < 0 {
          ItemsRest(pf, items, i + 1);
          StepLater(was, buffer[..], at0, len0, at, len, b1 + b2, Encode(ItemRecords(pf, items)));
          return n;
        }
        r := r + n;
      }
    }

    /** The loop over the numbers of a packed field. */
    method PackNumbers(ptype: PType, data: seq<LongLong>) returns (r: int)
      requires Valid() && IsNumber(ptype)
      modifies this, buffer
      ensures Valid()
      ensures var b := PatternPayload(ptype, data);
              && (r >= 0 ==> r == |b|)
              && Step(old(buffer[..]), buffer[..], old(at), old(len), at, len, r >= 0, b, |b|)
    {
      hide PatternPayload;
      hide PayloadBytes;
      hide ValuePayload;
      ghost var was, at0, len0 := buffer[..], at, len;
      StepNothing(was, at, len);
      NumbersEnd(ptype, data);
      r := 0;
      for i := 0 to |data|
        invariant Valid() && r == |PatternPayload(ptype, data[..i])|
        invariant Step(was, buffer[..], at0, len0, at, len, true, PatternPayload(ptype, data[..i]), r)
      {
        ghost var mid, at1, len1 := buffer[..], at, len;
        hide Step;
        NumbersStep(ptype, data, i);
        var n := PackNumber(ptype, data[i]);
        ghost var b1, b2 := PatternPayload(ptype, data[..i]), PayloadBytes(ValuePayload(ptype, data[i]).value);
        StepThen(was, mid, buffer[..], at0, len0, at1, len1, at, len, n >= 0, b1, |b1|, b2, |b2|);
        if n < 0 {
          NumbersRest(ptype, data, i + 1);
          StepLater(was, buffer[..], at0, len0, at, len, b1 + b2, PatternPayload(ptype, data));
          return -1;
        }
        r := r + n;
      }
    }

    /** `_pack_packed_fixed`. The room left is compared with the length less the header, which has
        been taken off already. */
    method PackPackedFixed(ptype: PType, width: nat, data: seq<LongLong>) returns (r: int)
      requires Valid() && 10 * |data| < 0x8000_0000
      requires if width == 8 then IsFixed64(ptype) else width == 4 && IsFixed32(ptype)
      modifies this, buffer
      ensures Valid()
      ensures var b := PatternPayload(ptype, data);
              var h := Varint(|b|);
              && (r >= 0 ==> r == |h + b|)
              && Step(old(buffer[..]), buffer[..], old(at), old(len), at, len, r >= 0, h + b, |h + b| + |h|)
    {
      FixedSize(ptype, width, data);
      hide *;
      SliceFits(this);
      ghost var was, at0, len0 := buffer[..], at, len;
      var n := |data|;
      var size := n * width;
      ghost var h, b := Varint(size), PatternPayload(ptype, data);
      r := PackWiretype(size);
      ghost var mid, at1, len1 := buffer[..], at, len;
      if r < 0 || len - r < size {
        HeaderOnly(was, mid, at0, len0, at, len, r >= 0, h, b);
        return -1;
      }
      var packed := PackNumbers(ptype, data);
      HeaderAndNumbers(was, mid, buffer[..], at0, len0, at1, len1, at, len, packed >= 0, h, b);
      r := r + size;
    }

    /** `_pack_packed_varint`: a copy of the slice header takes the bytes, behind a length that is
        only a guess. */
    method PackPackedVarint(ptype: PType, data: seq<LongLong>) returns (r: int)
      requires Valid() && 10 * |data| < 0x8000_0000 && IsVarint(ptype)
      modifies this, buffer
      ensures Valid()
      ensures var b := PatternPayload(ptype, data);
              var h := Varint(|b|);
              && (r >= 0 ==> r == |h + b|)
              && Step(old(buffer[..]), buffer[..], old(at), old(len), at, len, r >= 0, h + b, |h + b|)
    {
      VarintSize(ptype, data);
      hide Varint;
      hide PatternPayload;
      hide VarintPayload;
      ghost var was := buffer[..];
      var s := new Slice(buffer, at, len);
      var estimate := |data|;
      ghost var guess, b := Varint(estimate), PatternPayload(ptype, data);
      LongerNumber(estimate, |b|);
      var estimateLen := s.PackWiretype(estimate);
      if estimateLen < 0 { return -1; }
      ghost var mid, at1, len1 := buffer[..], s.at, s.len;
      var packedLen := s.PackNumbers(ptype, data);
      StepThen(was, mid, buffer[..], at, len, at1, len1, s.at, s.len, packedLen >= 0, guess, |guess|, b, |b|);
      if packedLen < 0 { return -1; }
      if packedLen == estimate {
        at, len := s.at, s.len;
        return packedLen + estimateLen;
      }
      GuessedAfter(was, buffer[..], at, len, s.at, s.len, guess, b);
      r := FixHeader(was, estimateLen, packedLen, b);
    }

    /** The end of `_pack_packed_varint`, when the guess was wrong. */
    method FixHeader(ghost was: seq<byte>, estimateLen: nat, packedLen: nat, ghost b: seq<byte>) returns (r: int)
      requires Valid() && packedLen == |b| < 0x8000_0000 && estimateLen <= |Varint(|b|)|
      requires Guessed(was, buffer[..], at, len, estimateLen, b)
      modifies this, buffer
      ensures Valid()
      ensures var h := Varint(|b|);
              && (r >= 0 ==> r == |h + b|)
              && Step(was, buffer[..], old(at), old(len), at, len, r >= 0, h + b, |h + b|)
    {
      hide *;
      var header := HeaderOf(packedLen);
      var headerLen := |header|;
      ghost var now := buffer[..];
      GuessedFacts(was, now, at, len, estimateLen, b);
      if headerLen != estimateLen {
        if headerLen + packedLen > len {
          GuessedTooLong(was, now, at, len, estimateLen, Varint(|b|), b);
          return -1;
        }
        Move(buffer, at + headerLen, at + estimateLen, packedLen);
        GuessedMoved(was, now, buffer[..], at, len, estimateLen, headerLen, b);
      }
      r := StoreHeader(was, header, b, packedLen);
    }

    /** The true length, by way of a scratch buffer. */
    method HeaderOf(packedLen: nat) returns (header: seq<byte>)
      requires packedLen < 0x8000_0000
      ensures header == Varint(packedLen)
    {
      hide Varint;
      var temp := new byte[10];
      Widths(packedLen);
      var headerLen := Encode32(packedLen, temp, 0);
      header := temp[..headerLen];
      assert temp[..][..headerLen] == Varint(packedLen);
    }

    method StoreHeader(ghost was: seq<byte>, header: seq<byte>, ghost b: seq<byte>, packedLen: nat) returns (r: int)
      requires Valid() && packedLen == |b| && Guessed(was, buffer[..], at, len, |header|, b)
      modifies this, buffer
      ensures Valid() && r == |header + b|
      ensures Step(was, buffer[..], old(at), old(len), at, len, true, header + b, |header + b|)
    {
      ghost var now := buffer[..];
      GuessedFacts(was, now, at, len, |header|, b);
      Overwrite(buffer, at, header);
      GuessedHeader(was, now, buffer[..], at, len, header, b);
      r := packedLen + |header|;
      at, len := at + r, len - r;
    }

    /** `_pack_packed` */
    method PackPacked(pf: PatternField, data: seq<LongLong>) returns (r: int)
      requires Valid() && 0 < pf.id < 0x1000_0000 && IsNumber(pf.ptype) && 10 * |data| < 0x8000_0000
      modifies this, buffer
      ensures Valid()
      ensures data == [] ==> r == 0 && Step(old(buffer[..]), buffer[..], old(at), old(len), at, len, true, [], 0)
      ensures var p := PatternPayload(pf.ptype, data);
              var b := RecordBytes(Record(pf.id, Payload.Bytes(p)));
              data != [] ==>
                && (r >= 0 ==> r == |b|)
                && Step(old(buffer[..]), buffer[..], old(at), old(len), at, len, r >= 0, b,
                        |b| + if IsFixed64(pf.ptype) || IsFixed32(pf.ptype) then |Varint(|p|)| else 0)
    {
      hide *;
      SliceFits(this);
      if data == [] {
        StepNothing(buffer[..], at, len);
        return 0;
      }
      PackedNeed(pf, data);
      r := PackTagged(pf, data);
    }

    /** The tag of a packed field, and then length and numbers. */
    method PackTagged(pf: PatternField, data: seq<LongLong>) returns (r: int)
      requires Valid() && 0 < pf.id < 0x1000_0000 && IsNumber(pf.ptype) && 10 * |data| < 0x8000_0000
      modifies this, buffer
      ensures Valid()
      ensures var p := PatternPayload(pf.ptype, data);
              var b := Varint(8 * pf.id + WT_LEND) + (Varint(|p|) + p);
              && (r >= 0 ==> r == |b|)
              && Step(old(buffer[..]), buffer[..], old(at), old(len), at, len, r >= 0, b,
                      |b| + if IsFixed64(pf.ptype) || IsFixed32(pf.ptype) then |Varint(|p|)| else 0)
    {
      assert WT_LEND == 2;
      hide *;
      SliceFits(this);
      ghost var was, at0, len0 := buffer[..], at, len;
      ghost var p := PatternPayload(pf.ptype, data);
      ghost var tag, b2 := Varint(8 * pf.id + WT_LEND), Varint(|p|) + p;
      ghost var n2 := |b2| + if IsFixed64(pf.ptype) || IsFixed32(pf.ptype) then |Varint(|p|)| else 0;
      r := PackWiretype(8 * pf.id + WT_LEND);
      ghost var mid, at1, len1 := buffer[..], at, len;
      if r < 0 {
        StepFailed(was, mid, at0, len0, at, len, tag, |tag|, b2, n2);
        return;
      }
      var len2 := PackAll(pf.ptype, data);
      StepThen(was, mid, buffer[..], at0, len0, at1, len1, at, len, len2 >= 0, tag, |tag|, b2, n2);
      if len2 < 0 { return len2; }
      r := r + len2;
    }

    /** The switch of `_pack_packed`: length and numbers. */
    method PackAll(ptype: PType, data: seq<LongLong>) returns (r: int)
      requires Valid() && IsNumber(ptype) && 10 * |data| < 0x8000_0000
      modifies this, buffer
      ensures Valid()
      ensures var p := PatternPayload(ptype, data);
              var b := Varint(|p|) + p;
              && (r >= 0 ==> r == |b|)
              && Step(old(buffer[..]), buffer[..], old(at), old(len), at, len, r >= 0, b,
                      |b| + if IsFixed64(ptype) || IsFixed32(ptype) then |Varint(|p|)| else 0)
    {
      KindOf(ptype);
      hide *;
      if IsFixed64(ptype) {
        r := PackPackedFixed(ptype, 8, data);
      } else if IsFixed32(ptype) {
        r := PackPackedFixed(ptype, 4, data);
      } else {
        r := PackPackedVarint(ptype, data);
      }
    }

    /** The switch over the label in `pbc_pattern_pack`. */
    method PackMember(pf: PatternField, slot: Slot) returns (r: int)
      requires Valid() && SlotFits(pf, slot)
      modifies this, buffer
      ensures Valid()
      ensures Step(old(buffer[..]), buffer[..], old(at), old(len), at, len, r >= 0,
                   Encode(FieldRecords(pf, slot)), FieldNeed(pf, slot))
    {
      hide *;
      MemberEncoding(pf, slot);
      if pf.rule == Repeated {
        r := PackRepeated(pf, slot.items);
      } else if pf.rule == Packed {
        r := PackPacked(pf, NumbersOf(slot.items));
      } else if pf.rule == Optional && IsDefault(pf, slot) {
        SliceFits(this);
        StepNothing(buffer[..], at, len);
        r := 0;
      } else {
        r := PackField(pf, ValueOf(pf, slot));
      }
    }
  }

  // ----- what the pieces add up to ---------------------------------------------------------------

  lemma EncodeOne(r: Record)
    ensures Encode([r]) == RecordBytes(r)
  {
    hide RecordBytes;
    assert [r][1..] == [];
  }

  lemma VarEncoding(pf: PatternField, v: Var)
    requires pf.id >= 0 && VarFits(pf.ptype, v) && (IsText(pf.ptype) || IsNumber(pf.ptype))
    ensures IsText(pf.ptype) ==>
              && v.Text? && TextFits(String, v)
              && Encode(VarRecords(pf, v)) == Varint(8 * pf.id + WT_LEND) + Varint(|TextBytes(v)|) + TextBytes(v)
    ensures !IsText(pf.ptype) ==>
              && v.Number? && ValuePayload(pf.ptype, v.v).Some?
              && Encode(VarRecords(pf, v)) == RecordBytes(Record(pf.id, ValuePayload(pf.ptype, v.v).value))
  {
    hide Varint;
    EncodeOne(VarRecords(pf, v)[0]);
    hide Encode;
  }

  lemma ItemsStep(pf: PatternField, items: seq<Var>, i: nat)
    requires pf.id >= 0 && i < |items| && forall v <- items :: VarFits(pf.ptype, v)
    ensures Encode(ItemRecords(pf, items[..i + 1]))
         == Encode(ItemRecords(pf, items[..i])) + Encode(VarRecords(pf, items[i]))
  {
    hide VarRecords;
    hide VarFits;
    hide Encode;
    assert items[..i + 1][..i] == items[..i];
    EncodeConcat(ItemRecords(pf, items[..i]), VarRecords(pf, items[i]));
  }

  lemma ItemsEnd(pf: PatternField, items: seq<Var>)
    requires pf.id >= 0 && forall v <- items :: VarFits(pf.ptype, v)
    ensures items[..|items|] == items && Encode(ItemRecords(pf, items[..0])) == []
  {
  }

  lemma {:induction false} ItemsRest(pf: PatternField, items: seq<Var>, i: nat)
    requires pf.id >= 0 && i <= |items| && forall v <- items :: VarFits(pf.ptype, v)
    ensures Encode(ItemRecords(pf, items[..i])) <= Encode(ItemRecords(pf, items))
    decreases |items| - i
  {
    hide Encode;
    hide ItemRecords;
    if i < |items| {
      ItemsStep(pf, items, i);
      ItemsRest(pf, items, i + 1);
    } else {
      assert items[..i] == items;
    }
  }

  lemma KindOf(ptype: PType)
    requires IsNumber(ptype)
    ensures IsFixed64(ptype) || IsFixed32(ptype) || IsVarint(ptype)
    ensures IsVarint(ptype) ==> !IsFixed64(ptype) && !IsFixed32(ptype)
    ensures !(IsFixed64(ptype) && IsFixed32(ptype))
  {
  }

  /** The record of a packed field, in parts. */
  lemma PackedNeed(pf: PatternField, data: seq<LongLong>)
    requires 0 < pf.id < 0x1000_0000
    ensures 8 * pf.id + WT_LEND < 0x1_0000_0000
    ensures var p := PatternPayload(pf.ptype, data);
            RecordBytes(Record(pf.id, Payload.Bytes(p))) == Varint(8 * pf.id + WT_LEND) + (Varint(|p|) + p)
  {
    hide Varint;
    hide PatternPayload;
  }

  /** There is no room for the header and the numbers, or not for the header once more. */
  lemma HeaderOnly(was: seq<byte>, mid: seq<byte>, at: nat, len: nat, at1: nat, len1: nat, ok: bool, h: seq<byte>,
                   b: seq<byte>)
    requires Step(was, mid, at, len, at1, len1, ok, h, |h|) && (ok ==> len1 - |h| < |b|)
    ensures Step(was, mid, at, len, at1, len1, false, h + b, |h + b| + |h|)
  {
  }

  lemma HeaderAndNumbers(was: seq<byte>, mid: seq<byte>, now: seq<byte>, at: nat, len: nat, at1: nat, len1: nat,
                         at2: nat, len2: nat, ok: bool, h: seq<byte>, b: seq<byte>)
    requires Step(was, mid, at, len, at1, len1, true, h, |h|) && len1 - |h| >= |b|
    requires Step(mid, now, at1, len1, at2, len2, ok, b, |b|)
    ensures ok && Step(was, now, at, len, at2, len2, true, h + b, |h + b| + |h|)
  {
    StepThen(was, mid, now, at, len, at1, len1, at2, len2, ok, h, |h|, b, |b|);
  }

  /** A failure on the way is a failure of the whole. */
  lemma StepLater(was: seq<byte>, now: seq<byte>, at: nat, len: nat, at1: nat, len1: nat, b: seq<byte>,
                  whole: seq<byte>)
    requires Step(was, now, at, len, at1, len1, false, b, |b|) && b <= whole
    ensures Step(was, now, at, len, at1, len1, false, whole, |whole|)
  {
  }

  lemma NumbersStep(ptype: PType, data: seq<LongLong>, i: nat)
    requires IsNumber(ptype) && i < |data|
    ensures ValuePayload(ptype, data[i]).Some?
    ensures PatternPayload(ptype, data[..i + 1])
         == PatternPayload(ptype, data[..i]) + PayloadBytes(ValuePayload(ptype, data[i]).value)
  {
    hide *;
    KindOf(ptype);
    var front := data[..i + 1];
    assert front[..i] == data[..i] && front[i] == data[i];
    if IsFixed32(ptype) {
      NarrowStep(ptype, front);
      WordStep(ptype, data[i]);
    } else if IsFixed64(ptype) {
      WideStep(ptype, front);
      WordStep(ptype, data[i]);
    } else {
      VarintStep(ptype, front);
    }
  }

  lemma WideStep(ptype: PType, data: seq<LongLong>)
    requires IsFixed64(ptype) && data != []
    ensures var n := |data| - 1;
            PatternPayload(ptype, data) == PatternPayload(ptype, data[..n]) + Bytes64(data[n])
  {
    hide Bytes64;
  }

  lemma WordStep(ptype: PType, v: LongLong)
    requires IsFixed64(ptype) || IsFixed32(ptype)
    ensures ValuePayload(ptype, v).Some?
    ensures PayloadBytes(ValuePayload(ptype, v).value)
            == if IsFixed64(ptype) then Bytes64(v) else Bytes32(Sent(ptype, v).low)
  {
    hide Narrow;
    hide Bytes32;
  }

  lemma VarintStep(ptype: PType, data: seq<LongLong>)
    requires IsVarint(ptype) && data != []
    ensures var n := |data| - 1;
            && ValuePayload(ptype, data[n]).Some?
            && PatternPayload(ptype, data)
               == PatternPayload(ptype, data[..n]) + PayloadBytes(ValuePayload(ptype, data[n]).value)
  {
    ElementIs(ptype, data[|data| - 1]);
    hide ElementBytes;
    hide ValuePayload;
    hide PayloadBytes;
    hide Widened;
  }

  lemma ElementIs(ptype: PType, v: LongLong)
    requires IsVarint(ptype)
    ensures ValuePayload(ptype, v).Some?
    ensures PayloadBytes(ValuePayload(ptype, v).value) == ElementBytes(Widened(ptype), v)
  {
    hide Varint;
    hide Join;
    hide ZigZag32;
    hide ZigZag64;
  }

  lemma NarrowStep(ptype: PType, data: seq<LongLong>)
    requires IsFixed32(ptype) && data != []
    ensures var n := |data| - 1;
            PatternPayload(ptype, data) == PatternPayload(ptype, data[..n]) + Bytes32(Sent(ptype, data[n]).low)
  {
    var n := |data| - 1;
    var sent := AllSent(ptype, data);
    assert sent[..n] == AllSent(ptype, data[..n]) && sent[n] == Sent(ptype, data[n]);
    hide Bytes32;
    hide Sent;
  }

  lemma NumbersEnd(ptype: PType, data: seq<LongLong>)
    requires IsNumber(ptype)
    ensures data[..|data|] == data && PatternPayload(ptype, data[..0]) == []
  {
  }

  lemma FixedSize(ptype: PType, width: nat, data: seq<LongLong>)
    requires if width == 8 then IsFixed64(ptype) else width == 4 && IsFixed32(ptype)
    ensures |PatternPayload(ptype, data)| == |data| * width && IsNumber(ptype)
    ensures 10 * |data| < 0x8000_0000 ==> |data| * width < 0x8000_0000
  {
    hide VarintPayload;
  }

  lemma VarintSize(ptype: PType, data: seq<LongLong>)
    requires IsVarint(ptype)
    ensures |data| <= |PatternPayload(ptype, data)| <= 10 * |data| && IsNumber(ptype)
  {
    PayloadWidth(Widened(ptype), data);
    hide VarintPayload;
  }

  lemma {:induction false} NumbersRest(ptype: PType, data: seq<LongLong>, i: nat)
    requires IsNumber(ptype) && i <= |data|
    ensures PatternPayload(ptype, data[..i]) <= PatternPayload(ptype, data)
    decreases |data| - i
  {
    hide PatternPayload;
    if i < |data| {
      NumbersStep(ptype, data, i);
      NumbersRest(ptype, data, i + 1);
    } else {
      assert data[..i] == data;
    }
  }

  /** Behind `g` bytes of header lie the bytes `b`, and nothing outside the slice has changed. */
  ghost predicate Guessed(was: seq<byte>, now: seq<byte>, at: nat, len: nat, g: nat, b: seq<byte>) {
    && at + len <= |was| == |now| && g + |b| <= len
    && now[..at] == was[..at] && now[at + len..] == was[at + len..]
    && now[at + g..at + g + |b|] == b
  }

  lemma GuessedFacts(was: seq<byte>, now: seq<byte>, at: nat, len: nat, g: nat, b: seq<byte>)
    requires Guessed(was, now, at, len, g, b)
    ensures at + len <= |now| && g + |b| <= len && now[at + g..at + g + |b|] == b
  {
  }

  lemma GuessedTooLong(was: seq<byte>, now: seq<byte>, at: nat, len: nat, g: nat, h: seq<byte>, b: seq<byte>)
    requires Guessed(was, now, at, len, g, b) && |h| + |b| > len
    ensures Step(was, now, at, len, at, len, false, h + b, |h + b|)
  {
  }

  lemma GuessedAfter(was: seq<byte>, now: seq<byte>, at: nat, len: nat, at1: nat, len1: nat, guess: seq<byte>,
                     b: seq<byte>)
    requires Step(was, now, at, len, at1, len1, true, guess + b, |guess + b|)
    ensures Guessed(was, now, at, len, |guess|, b)
  {
    assert now[at + |guess|..at1] == now[at..at1][|guess|..];
  }

  lemma GuessedMoved(was: seq<byte>, now: seq<byte>, moved: seq<byte>, at: nat, len: nat, g: nat, h: nat, b: seq<byte>)
    requires Guessed(was, now, at, len, g, b) && h + |b| <= len
    requires moved == Splice(now, at + h, now[at + g..at + g + |b|])
    ensures Guessed(was, moved, at, len, h, b)
  {
    assert moved[..at] == now[..at] && moved[at + len..] == now[at + len..];
  }

  lemma GuessedHeader(was: seq<byte>, now: seq<byte>, done: seq<byte>, at: nat, len: nat, h: seq<byte>, b: seq<byte>)
    requires Guessed(was, now, at, len, |h|, b) && done == Splice(now, at, h)
    ensures Step(was, done, at, len, at + |h + b|, len - |h + b|, true, h + b, |h + b|)
  {
    assert done[..at] == now[..at] && done[at + len..] == now[at + len..];
    assert done[at..at + |h|] == h;
    assert done[at + |h|..at + |h + b|] == now[at + |h|..at + |h + b|];
    assert done[at..at + |h + b|] == done[at..at + |h|] + done[at + |h|..at + |h + b|];
  }

  /** The value of a member that is not an array. */
  function ValueOf(pf: PatternField, slot: Slot): Var
    requires SlotFits(pf, slot) && !slot.Array?
  {
    if slot.Scalar? then Number(Load(pf.ctype, slot.n)) else slot.v
  }

  lemma MemberEncoding(pf: PatternField, slot: Slot)
    requires SlotFits(pf, slot)
    ensures 0 < pf.id < 0x1000_0000 && (IsText(pf.ptype) || IsNumber(pf.ptype))
    ensures pf.rule == Repeated ==>
              && slot.Array? && (forall v <- slot.items :: VarFits(pf.ptype, v))
              && FieldRecords(pf, slot) == ItemRecords(pf, slot.items)
              && FieldNeed(pf, slot) == |Encode(ItemRecords(pf, slot.items))|
    ensures pf.rule == Packed ==>
              && slot.Array? && IsNumber(pf.ptype) && 10 * |slot.items| < 0x8000_0000
              && (forall v <- slot.items :: v.Number?) && |NumbersOf(slot.items)| == |slot.items|
              && var data := NumbersOf(slot.items);
                 var p := PatternPayload(pf.ptype, data);
                 var b := RecordBytes(Record(pf.id, Payload.Bytes(p)));
                 if data == [] then Encode(FieldRecords(pf, slot)) == [] && FieldNeed(pf, slot) == 0
                 else
                   && Encode(FieldRecords(pf, slot)) == b
                   && FieldNeed(pf, slot)
                      == |b| + if IsFixed64(pf.ptype) || IsFixed32(pf.ptype) then |Varint(|p|)| else 0
    ensures pf.rule == Optional && IsDefault(pf, slot) ==>
              Encode(FieldRecords(pf, slot)) == [] && FieldNeed(pf, slot) == 0
    ensures (pf.rule == Optional && !IsDefault(pf, slot)) || pf.rule == Required ==>
              && !slot.Array? && VarFits(pf.ptype, ValueOf(pf, slot))
              && FieldRecords(pf, slot) == VarRecords(pf, ValueOf(pf, slot))
              && FieldNeed(pf, slot) == |Encode(VarRecords(pf, ValueOf(pf, slot)))|
  {
    hide Varint;
    hide PatternPayload;
    hide ItemRecords;
    hide VarRecords;
    hide TextFits;
    hide RecordBytes;
    if pf.rule == Packed && slot.items != [] {
      EncodeOne(Record(pf.id, Payload.Bytes(PatternPayload(pf.ptype, NumbersOf(slot.items)))));
    }
  }

  // ----- the whole struct ------------------------------------------------------------------------

  lemma FitsPrefix(pat: seq<PatternField>, input: seq<Slot>, i: nat)
    requires Fits(pat, input) && i <= |pat|
    ensures |pat| == |input| && Fits(pat[..i], input[..i])
  {
    hide SlotFits;
  }

  /** What has been packed, and needed, after the first `i` members. */
  ghost function BytesTo(pat: seq<PatternField>, input: seq<Slot>, i: nat): seq<byte>
    requires Fits(pat, input) && i <= |pat|
  {
    FitsPrefix(pat, input, i);
    Encode(PatternRecords(pat[..i], input[..i]))
  }

  ghost function NeedTo(pat: seq<PatternField>, input: seq<Slot>, i: nat): nat
    requires Fits(pat, input) && i <= |pat|
  {
    FitsPrefix(pat, input, i);
    PatternNeed(pat[..i], input[..i])
  }

  lemma MemberStep(pat: seq<PatternField>, input: seq<Slot>, i: nat)
    requires Fits(pat, input) && i < |pat|
    ensures SlotFits(pat[i], input[i])
    ensures BytesTo(pat, input, i + 1) == BytesTo(pat, input, i) + Encode(FieldRecords(pat[i], input[i]))
    ensures NeedTo(pat, input, i + 1)
            == Max(NeedTo(pat, input, i), |BytesTo(pat, input, i)| + FieldNeed(pat[i], input[i]))
  {
    FitsPrefix(pat, input, i);
    FitsPrefix(pat, input, i + 1);
    hide SlotFits;
    hide FieldRecords;
    hide FieldNeed;
    hide Encode;
    var p, s := pat[..i + 1], input[..i + 1];
    assert p[..i] == pat[..i] && s[..i] == input[..i];
    EncodeConcat(PatternRecords(pat[..i], input[..i]), FieldRecords(pat[i], input[i]));
  }

  lemma {:induction false} MembersRest(pat: seq<PatternField>, input: seq<Slot>, i: nat)
    requires Fits(pat, input) && i <= |pat|
    ensures BytesTo(pat, input, i) <= Encode(PatternRecords(pat, input))
    ensures NeedTo(pat, input, i) <= PatternNeed(pat, input)
    ensures BytesTo(pat, input, |pat|) == Encode(PatternRecords(pat, input))
    ensures NeedTo(pat, input, |pat|) == PatternNeed(pat, input)
    decreases |pat| - i
  {
    assert pat[..|pat|] == pat && input[..|pat|] == input;
    if i < |pat| {
      MemberStep(pat, input, i);
      MembersRest(pat, input, i + 1);
    }
  }

  lemma NothingPacked(pat: seq<PatternField>, input: seq<Slot>)
    requires Fits(pat, input)
    ensures |pat| == |input| && BytesTo(pat, input, 0) == [] && NeedTo(pat, input, 0) == 0
  {
  }

  lemma StepOutside(was: seq<byte>, now: seq<byte>, at: nat, len: nat, at': nat, len': nat, ok: bool, b: seq<byte>,
                    n: nat)
    requires Step(was, now, at, len, at', len', ok, b, n)
    ensures at + len <= |was| == |now| && now[..at] == was[..at] && now[at + len..] == was[at + len..]
    ensures (ok <==> n <= len) && at' + len' == at + len
    ensures ok ==> at' == at + |b| && now[at..at'] == b
  {
  }

  /** `pbc_pattern_pack`. It succeeds exactly in a slice of at least `PatternNeed` bytes, with the
      same bytes in all of them; then what is used and what is left make up the capacity. On
      failure the slice header stays as it was. Nothing outside the slice is ever written. */
  method Pack(pat: seq<PatternField>, input: seq<Slot>, s: Slice) returns (r: int)
    requires s.Valid() && Fits(pat, input)
    modifies s, s.buffer
    ensures s.Valid() && s.at == old(s.at)
    ensures r >= 0 <==> PatternNeed(pat, input) <= old(s.len)
    ensures r >= 0 ==> s.len + r == old(s.len) && s.buffer[s.at..s.at + s.len] == Encode(PatternRecords(pat, input))
    ensures r < 0 ==> s.len == old(s.len)
    ensures s.buffer[..s.at] == old(s.buffer[..s.at])
    ensures s.buffer[s.at + old(s.len)..] == old(s.buffer[s.at + s.len..])
  {
    hide *;
    SliceFits(s);
    ghost var was := s.buffer[..];
    var slice := new Slice(s.buffer, s.at, s.len);
    FitsSlice(slice);
    r := PackMembers(pat, input, slice);
    ghost var bytes := Encode(PatternRecords(pat, input));
    StepOutside(was, s.buffer[..], s.at, s.len, slice.at, slice.len, r >= 0, bytes, PatternNeed(pat, input));
    OutsideSlice(was, s.buffer, s.at, s.len);
    if r < 0 {
      FitsSlice(s);
      return;
    }
    var len := slice.at - s.at;
    r := s.len - len;
    s.len := len;
    FitsSlice(s);
    assert s.buffer[s.at..s.at + len] == s.buffer[..][s.at..s.at + len];
  }

  lemma FitsSlice(s: Slice)
    requires s.at + s.len <= s.buffer.Length
    ensures s.Valid()
  {
  }

  /** The loop of `pbc_pattern_pack`. */
  method PackMembers(pat: seq<PatternField>, input: seq<Slot>, slice: Slice) returns (r: int)
    requires slice.Valid() && Fits(pat, input)
    modifies slice, slice.buffer
    ensures slice.Valid()
    ensures Step(old(slice.buffer[..]), slice.buffer[..], old(slice.at), old(slice.len), slice.at, slice.len, r >= 0,
                 Encode(PatternRecords(pat, input)), PatternNeed(pat, input))
  {
    hide *;
    ghost var was, at0, len0 := slice.buffer[..], slice.at, slice.len;
    NothingPacked(pat, input);
    SliceFits(slice);
    StepNothing(was, at0, len0);
    MembersRest(pat, input, |pat|);
    var i := 0;
    while i < |pat|
      invariant 0 <= i <= |pat| == |input| && slice.Valid()
      invariant Step(was, slice.buffer[..], at0, len0, slice.at, slice.len,
                true, BytesTo(pat, input, i), NeedTo(pat, input, i))
    {
      ghost var mid, at1, len1 := slice.buffer[..], slice.at, slice.len;
      MemberStep(pat, input, i);
      var len := slice.PackMember(pat[i], input[i]);
      StepThen(was, mid, slice.buffer[..], at0, len0, at1, len1, slice.at, slice.len, len >= 0,
               BytesTo(pat, input, i), NeedTo(pat, input, i),
               Encode(FieldRecords(pat[i], input[i])), FieldNeed(pat[i], input[i]));
      if len < 0 {
        MembersRest(pat, input, i + 1);
        NeedIsEnough(pat, input);
        StepNeverFits(was, slice.buffer[..], at0, len0, slice.at, slice.len, BytesTo(pat, input, i + 1),
                      NeedTo(pat, input, i + 1), Encode(PatternRecords(pat, input)), PatternNeed(pat, input));
        return len;
      }
      i := i + 1;
    }
    r := 0;
  }

  lemma SliceFits(s: Slice)
    requires s.Valid()
    ensures s.at + s.len <= s.buffer.Length
  {
  }

  lemma StepNeverFits(was: seq<byte>, now: seq<byte>, at: nat, len: nat, at': nat, len': nat,
                      b: seq<byte>, n: nat, b2: seq<byte>, n2: nat)
    requires Step(was, now, at, len, at', len', false, b, n) && n <= n2 && |b2| <= n2
    ensures Step(was, now, at, len, at', len', false, b2, n2)
  {
  }

  lemma NeedIsEnough(pat: seq<PatternField>, input: seq<Slot>)
    requires Fits(pat, input)
    ensures |Encode(PatternRecords(pat, input))| <= PatternNeed(pat, input)
  {
    NeedIsTight(pat, input);
  }

  lemma OutsideSlice(was: seq<byte>, buffer: array<byte>, at: nat, len: nat)
    requires at + len <= |was| == buffer.Length
    requires buffer[..][..at] == was[..at] && buffer[..][at + len..] == was[at + len..]
    ensures buffer[..at] == was[..at] && buffer[at + len..] == was[at + len..]
  {
    assert buffer[..at] == buffer[..][..at];
    assert buffer[at + len..] == buffer[..][at + len..];
  }

  /** The length of a packed field of fixed width, which is asked for twice. */
  function AskedTwice(pf: PatternField, slot: Slot): nat
    requires SlotFits(pf, slot)
  {
    FieldNeed(pf, slot) - |Encode(FieldRecords(pf, slot))|
  }

  /** A slice of just the size of the result is big enough exactly when behind every packed field
      of fixed width at least as many bytes follow as its length takes. */
  lemma NeedIsTight(pat: seq<PatternField>, input: seq<Slot>)
    requires Fits(pat, input)
    ensures |Encode(PatternRecords(pat, input))| <= PatternNeed(pat, input)
    ensures PatternNeed(pat, input) == |Encode(PatternRecords(pat, input))|
       <==> forall k :: 0 <= k < |pat| ==>
              |BytesTo(pat, input, k + 1)| + AskedTwice(pat[k], input[k]) <= |Encode(PatternRecords(pat, input))|
  {
    MembersRest(pat, input, |pat|);
    hide *;
    NeedUpTo(pat, input, |pat|, |Encode(PatternRecords(pat, input))|);
  }

  lemma {:induction false} NeedUpTo(pat: seq<PatternField>, input: seq<Slot>, n: nat, cap: nat)
    requires Fits(pat, input) && n <= |pat| == |input|
    ensures |BytesTo(pat, input, n)| <= NeedTo(pat, input, n)
    ensures forall k: nat :: k < n ==> SlotFits(pat[k], input[k])
    ensures NeedTo(pat, input, n) <= cap
       <==> forall k: nat :: k < n ==> |BytesTo(pat, input, k + 1)| + AskedTwice(pat[k], input[k]) <= cap
  {
    hide *;
    if n > 0 {
      NeedUpTo(pat, input, n - 1, cap);
      MemberStep(pat, input, n - 1);
      AskedIs(pat[n - 1], input[n - 1]);
      MaxIs(NeedTo(pat, input, n - 1), |BytesTo(pat, input, n - 1)| + FieldNeed(pat[n - 1], input[n - 1]));
    } else {
      NothingPacked(pat, input);
    }
  }

  lemma MaxIs(a: nat, b: nat)
    ensures Max(a, b) == if a < b then b else a
  {
  }

  lemma AskedIs(pf: PatternField, slot: Slot)
    requires SlotFits(pf, slot)
    ensures AskedTwice(pf, slot) + |Encode(FieldRecords(pf, slot))| == FieldNeed(pf, slot)
  {
  }

  /** One packed fixed32 number takes six bytes; the call asks for seven. */
  lemma SevenForSix()
    ensures var pf := PatternField(1, Fixed32, CPacked, Packed, LongLong(0, 0), [], 0);
            var slot := Array([Number(LongLong(5, 0))]);
            && Fits([pf], [slot])
            && |Encode(PatternRecords([pf], [slot]))| == 6 && PatternNeed([pf], [slot]) == 7
  {
    var pf := PatternField(1, Fixed32, CPacked, Packed, LongLong(0, 0), [], 0);
    var slot := Array([Number(LongLong(5, 0))]);
    FiveAlone(pf, slot);
    AloneRecords(pf, slot);
    hide FieldRecords;
    hide FieldNeed;
    hide PatternRecords;
    hide PatternNeed;
    hide Encode;
  }

  /** A pattern of one field. */
  lemma AloneRecords(pf: PatternField, slot: Slot)
    requires SlotFits(pf, slot)
    ensures Fits([pf], [slot]) && PatternRecords([pf], [slot]) == FieldRecords(pf, slot)
    ensures PatternNeed([pf], [slot]) == FieldNeed(pf, slot)
  {
    assert [pf][..0] == [] && [slot][..0] == [];
    assert PatternRecords([pf], [slot]) == [] + FieldRecords(pf, slot);
    hide SlotFits;
    hide FieldRecords;
    hide FieldNeed;
  }

  lemma FiveAlone(pf: PatternField, slot: Slot)
    requires pf == PatternField(1, Fixed32, CPacked, Packed, LongLong(0, 0), [], 0)
    requires slot == Array([Number(LongLong(5, 0))])
    ensures SlotFits(pf, slot) && |Encode(FieldRecords(pf, slot))| == 6 && FieldNeed(pf, slot) == 7
  {
    var data := NumbersOf(slot.items);
    FixedSize(Fixed32, 4, data);
    var p := PatternPayload(Fixed32, data);
    hide PatternPayload;
    EncodeOne(Record(1, Payload.Bytes(p)));
    assert FieldRecords(pf, slot) == [Record(1, Payload.Bytes(p))];
    assert Varint(10) == [10] && Varint(4) == [4];
  }
}
