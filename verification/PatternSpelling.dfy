/** What packing a member writes, and what unpacking stores, spelled out (lualib-src/pbc/src/pattern.c). */
module PatternSpelling {
  import opened Words
  import opened Varints
  import opened Wire
  import opened Schemas
  import opened Reals
  import opened PackedArrays
  import opened Writers
  import opened Spelling
  import opened Patterns
  import opened PatternTrips

  // ----- packing -------------------------------------------------------------------------------

  /** What is loaded from a member. */
  function Loaded(ctype: CType, n: u64): LongLong
    requires n < Limit(ctype)
  {
    match ctype
    case CInt64 | CDouble => LongLong(n % 0x1_0000_0000, n / 0x1_0000_0000)
    case CFloat => Widen(n)
    case _ => LongLong(n % 0x1_0000_0000, 0)
  }

  /** The member holds the default: as a number of its own width, as a number of the kind that it is, as a truth
      value, as a string up to its zero byte or of the given length; bytes do when they are NULL. */
  ghost predicate HoldsDefault(pf: PatternField, slot: Slot) {
    match slot
    case Scalar(n) =>
      (match pf.ctype
       case CInt64 => n == pf.default.low + 0x1_0000_0000 * pf.default.hi
       case CInt32 => n == pf.default.low
       case CInt16 => n == pf.default.low % 0x1_0000
       case CInt8 => n == pf.default.low % 0x100
       case CBool => n != 0 <==> pf.default.low != 0
       case CDouble =>
         var v := LongLong(n % 0x1_0000_0000, n / 0x1_0000_0000);
         !IsNaN(v) && !IsNaN(pf.default) && SignedUnits(v) == SignedUnits(pf.default)
       case CFloat =>
         && n < 0x1_0000_0000 && n % 0x8000_0000 <= 0x7F80_0000 && Narrow(pf.default) % 0x8000_0000 <= 0x7F80_0000
         && SignedFloat(n) == SignedFloat(Narrow(pf.default))
       case _ => false)
    case Single(Text(None, _)) => pf.ptype == PType.Bytes || (pf.ptype == String && CString(pf.defaultText) == [])
    case Single(Text(Some(b), len)) =>
      pf.ptype == String
      && if len <= 0 then CString(b) == CString(pf.defaultText)
         else len == |pf.defaultText| && len <= |b| && b[..len] == pf.defaultText
    case _ => false
  }

  lemma DefaultIs(pf: PatternField, slot: Slot)
    ensures IsDefault(pf, slot) <==> HoldsDefault(pf, slot)
  {
    hide *;
    if !slot.Scalar? {
      TextDefault(pf, slot);
    } else if pf.ctype == CDouble {
      DoubleDefault(pf, slot);
    } else if pf.ctype == CFloat {
      FloatDefault(pf, slot);
    } else {
      WholeDefault(pf, slot);
    }
  }

  lemma TextDefault(pf: PatternField, slot: Slot)
    requires !slot.Scalar?
    ensures IsDefault(pf, slot) <==> HoldsDefault(pf, slot)
  {
    hide CString;
  }

  lemma WholeDefault(pf: PatternField, slot: Slot)
    requires slot.Scalar? && pf.ctype != CDouble && pf.ctype != CFloat
    ensures IsDefault(pf, slot) <==> HoldsDefault(pf, slot)
  {
  }

  lemma DoubleDefault(pf: PatternField, slot: Slot)
    requires slot.Scalar? && pf.ctype == CDouble
    ensures IsDefault(pf, slot) <==> HoldsDefault(pf, slot)
  {
    SameRealIs(pf.default, Halves(slot.n));
    hide SameReal;
    hide SignedUnits;
    hide IsNaN;
  }

  lemma FloatDefault(pf: PatternField, slot: Slot)
    requires slot.Scalar? && pf.ctype == CFloat
    ensures IsDefault(pf, slot) <==> HoldsDefault(pf, slot)
  {
    if slot.n < 0x1_0000_0000 { SameFloatIs(Narrow(pf.default), slot.n); }
    hide SameFloat;
    hide SignedFloat;
    hide Narrow;
  }

  /** The bytes of a text: those that its length says, or, for a negative length, what comes before the first zero
      byte and so many bytes more. */
  lemma BytesHeld(v: Var)
    requires v.Text? && TextFits(String, v)
    ensures var b := TextBytes(v);
            match v.buffer
            case None => b == []
            case Some(s) =>
              if v.len >= 0 then b == s[..v.len]
              else
                var n := |b| + v.len;
                0 <= n <= |b| <= |s| && b == s[..|b|] && 0 !in s[..n] && s[n] == 0
  {
    if v.buffer.Some? { CStringIs(v.buffer.value); }
    hide CString;
  }

  /** A member that stands alone: nothing is written exactly when it is optional and holds the default, and else one
      record in these bytes. */
  lemma MemberSpelled(pf: PatternField, slot: Slot, was: seq<Record>)
    requires SlotFits(pf, slot) && (pf.rule == Optional || pf.rule == Required)
    ensures var rs, none := FieldRecords(pf, slot), pf.rule == Optional && HoldsDefault(pf, slot);
            && (rs == [] <==> none) && (!none ==> |rs| == 1 && rs[0].id == pf.id)
            && Encode(was + rs)
               == if none then Encode(was)
                  else if slot.Scalar? then
                    Encode(was) + Varint(8 * pf.id + Kind(pf.ptype)) + Spelled(pf.ptype, Loaded(pf.ctype, slot.n))
                  else
                    var b := TextBytes(slot.v);
                    Encode(was) + Varint(8 * pf.id + 2) + Varint(|b|) + b
  {
    hide *;
    var rs := FieldRecords(pf, slot);
    DefaultIs(pf, slot);
    MemberCases(pf, slot);
    if rs == [] {
      assert was + rs == was;
    } else if slot.Scalar? {
      LoadedIs(pf.ctype, slot.n);
      RecordSpelled(pf.id, pf.ptype, Loaded(pf.ctype, slot.n), was);
    } else {
      BytesSpelled(pf.id, TextBytes(slot.v), was);
    }
  }

  lemma LoadedIs(ctype: CType, n: u64)
    requires n < Limit(ctype)
    ensures Load(ctype, n) == Loaded(ctype, n)
  {
    hide Widen;
  }

  lemma MemberCases(pf: PatternField, slot: Slot)
    requires SlotFits(pf, slot) && (pf.rule == Optional || pf.rule == Required)
    ensures 0 < pf.id && !slot.Array?
    ensures slot.Scalar? ==> slot.n < Limit(pf.ctype) && ValuePayload(pf.ptype, Load(pf.ctype, slot.n)).Some?
    ensures var rs := FieldRecords(pf, slot);
            if pf.rule == Optional && IsDefault(pf, slot) then rs == []
            else if slot.Scalar? then rs == [Record(pf.id, ValuePayload(pf.ptype, Load(pf.ctype, slot.n)).value)]
            else slot.v.Text? && TextFits(String, slot.v) && rs == [Record(pf.id, Payload.Bytes(TextBytes(slot.v)))]
  {
    hide IsDefault;
    hide Load;
    hide TextBytes;
    hide Narrow;
    hide CString;
  }

  // ----- packing arrays ------------------------------------------------------------------------------

  /** A repeated member: one record for each element, in order. */
  lemma ItemSpelled(pf: PatternField, items: seq<Var>, was: seq<Record>)
    requires 0 < pf.id < 0x1000_0000 && (IsText(pf.ptype) || IsNumber(pf.ptype)) && items != []
    requires forall v <- items :: VarFits(pf.ptype, v)
    ensures items[|items| - 1].Number? || TextFits(String, items[|items| - 1])
    ensures var n := |items| - 1;
            var before, v := Encode(was + ItemRecords(pf, items[..n])), items[n];
            Encode(was + ItemRecords(pf, items))
            == if v.Number? then before + Varint(8 * pf.id + Kind(pf.ptype)) + Spelled(pf.ptype, v.v)
               else before + Varint(8 * pf.id + 2) + Varint(|TextBytes(v)|) + TextBytes(v)
  {
    hide *;
    var n := |items| - 1;
    var rs, v := ItemRecords(pf, items[..n]), items[n];
    LastItem(pf, items);
    assert was + (rs + VarRecords(pf, v)) == was + rs + VarRecords(pf, v);
    if v.Number? {
      RecordSpelled(pf.id, pf.ptype, v.v, was + rs);
    } else {
      BytesSpelled(pf.id, TextBytes(v), was + rs);
    }
  }

  lemma LastItem(pf: PatternField, items: seq<Var>)
    requires pf.id >= 0 && (IsText(pf.ptype) || IsNumber(pf.ptype)) && items != []
    requires forall v <- items :: VarFits(pf.ptype, v)
    ensures var n := |items| - 1;
            && VarFits(pf.ptype, items[n])
            && ItemRecords(pf, items) == ItemRecords(pf, items[..n]) + VarRecords(pf, items[n])
    ensures var v := items[|items| - 1];
            if v.Number? then
              && ValuePayload(pf.ptype, v.v).Some?
              && VarRecords(pf, v) == [Record(pf.id, ValuePayload(pf.ptype, v.v).value)]
            else TextFits(String, v) && VarRecords(pf, v) == [Record(pf.id, Payload.Bytes(TextBytes(v)))]
  {
    var v := items[|items| - 1];
    assert v in items && VarFits(pf.ptype, v);
    ItemOne(pf, v);
    hide VarRecords;
    hide VarFits;
    hide ValuePayload;
    hide TextFits;
  }

  lemma ItemOne(pf: PatternField, v: Var)
    requires pf.id >= 0 && (IsText(pf.ptype) || IsNumber(pf.ptype)) && VarFits(pf.ptype, v)
    ensures if v.Number? then
              && ValuePayload(pf.ptype, v.v).Some?
              && VarRecords(pf, v) == [Record(pf.id, ValuePayload(pf.ptype, v.v).value)]
            else TextFits(String, v) && VarRecords(pf, v) == [Record(pf.id, Payload.Bytes(TextBytes(v)))]
  {
    hide TextBytes;
    hide Narrow;
    hide CString;
  }

  /** The bytes of all numbers, one behind the other. */
  function SpelledEach(ptype: PType, data: seq<LongLong>): seq<byte> {
    if data == [] then [] else SpelledEach(ptype, data[..|data| - 1]) + Spelled(ptype, data[|data| - 1])
  }

  /** A packed member: nothing for an empty array, and else its numbers in order; other than in a message, an int32
      comes with both words. */
  lemma ArraySpelled(pf: PatternField, slot: Slot, was: seq<Record>)
    requires SlotFits(pf, slot) && pf.rule == Label.Packed
    ensures slot.Array? && forall v <- slot.items :: v.Number?
    ensures var b := SpelledEach(pf.ptype, NumbersOf(slot.items));
            Encode(was + FieldRecords(pf, slot))
            == if slot.items == [] then Encode(was) else Encode(was) + Varint(8 * pf.id + 2) + Varint(|b|) + b
    ensures var b := SpelledEach(pf.ptype, NumbersOf(slot.items));
            FieldNeed(pf, slot)
            == if slot.items == [] then 0
               else |Varint(8 * pf.id + 2)| + |Varint(|b|)| + |b| + if Kind(pf.ptype) == 0 then 0 else |Varint(|b|)|
  {
    hide *;
    ArrayCases(pf, slot);
    EachSpelled(pf.ptype, NumbersOf(slot.items));
    NeedIs(pf, slot);
    NothingEncoded();
    if slot.items == [] {
      assert was + [] == was;
    } else {
      var b := SpelledEach(pf.ptype, NumbersOf(slot.items));
      BytesSpelled(pf.id, b, was);
      BytesSpelled(pf.id, b, []);
      assert [] + FieldRecords(pf, slot) == FieldRecords(pf, slot);
    }
  }

  lemma NothingEncoded()
    ensures Encode([]) == []
  {
  }

  lemma NeedIs(pf: PatternField, slot: Slot)
    requires SlotFits(pf, slot) && pf.rule == Label.Packed
    ensures pf.ptype !in {String, PType.Bytes, PType.Message, Group} && slot.Array?
    ensures forall v <- slot.items :: v.Number?
    ensures FieldNeed(pf, slot)
         == |Encode(FieldRecords(pf, slot))|
            + if slot.items == [] || Kind(pf.ptype) == 0 then 0
              else |Varint(|PackedPayload(Widened(pf.ptype), NumbersOf(slot.items))|)|
  {
    hide PackedPayload;
    hide Widened;
    hide Varint;
    hide Encode;
    hide FieldRecords;
  }

  lemma ArrayCases(pf: PatternField, slot: Slot)
    requires SlotFits(pf, slot) && pf.rule == Label.Packed
    ensures pf.id > 0 && slot.Array? && (forall v <- slot.items :: v.Number?)
    ensures pf.ptype !in {String, PType.Bytes, PType.Message, Group}
    ensures FieldRecords(pf, slot)
         == if slot.items == [] then []
            else [Record(pf.id, Payload.Bytes(PackedPayload(Widened(pf.ptype), NumbersOf(slot.items))))]
  {
    hide PackedPayload;
    hide Widened;
  }

  lemma {:induction false} EachSpelled(ptype: PType, data: seq<LongLong>)
    requires ptype !in {String, PType.Bytes, PType.Message, Group}
    ensures PackedPayload(Widened(ptype), data) == SpelledEach(ptype, data)
  {
    hide *;
    WidenedIs(ptype);
    AllSpelled(Widened(ptype), data);
    SameSpelled(ptype, data);
  }

  lemma WidenedIs(ptype: PType)
    ensures Widened(ptype) == if ptype == Int32 then Int64 else ptype
  {
  }

  lemma {:induction false} SameSpelled(ptype: PType, data: seq<LongLong>)
    ensures SpelledAll(Widened(ptype), data) == SpelledEach(ptype, data)
  {
    hide Varint;
    hide Narrow;
    hide Little;
    if data != [] { SameSpelled(ptype, data[..|data| - 1]); }
  }

  // ----- unpacking -----------------------------------------------------------------------------------

  /** What is stored in a member of a C type that held `was`. */
  function Stored(ctype: CType, v: LongLong, was: u64): nat {
    match ctype
    case CInt32 => v.low
    case CBool => if v.low == 0 then 0 else 1
    case CInt8 => v.low % 0x100
    case CInt16 => was - was % 0x100 + v.low % 0x100
    case CFloat => Narrow(v)
    case _ => v.low + 0x1_0000_0000 * v.hi
  }

  /** One atom for a member that holds a number: it may come with any wire type, but a sint64 is refused unless it
      is length-delimited. */
  lemma NumberHeard(pf: PatternField, a: Atom, b: seq<byte>, slot: Slot)
    requires OutFits(pf, slot) && slot.Scalar? && pf.ctype !in {CArray, CPacked, CVar}
    ensures var v := LongLong(a.low, a.hi);
            var number := if pf.ptype == Enum then v else Heard(pf.ptype, v);
            if pf.ptype == SInt64 && a.wireId % 8 != 2 then UnpackOne(pf, DatumOf(a, b), slot) == None
            else
              && Stored(pf.ctype, number, slot.n) < 0x1_0000_0000_0000_0000
              && UnpackOne(pf, DatumOf(a, b), slot) == Some(Scalar(Stored(pf.ctype, number, slot.n)))
  {
    RawHeard(pf.ptype, a.Number());
    StoredIs(pf.ctype, a, pf.ptype, slot.n);
    hide Heard;
    hide Raw;
    hide SliceOf;
    hide Store;
    hide Stored;
  }

  /** One atom for an element of an array, or for a slice: a text must be length-delimited. */
  lemma ElementHeard(pf: PatternField, a: Atom, b: seq<byte>, slot: Slot)
    requires OutFits(pf, slot) && (pf.ctype == CArray || pf.ctype == CVar)
    requires IsText(pf.ptype) && a.wireId % 8 == 2 ==> 2 <= a.low <= a.hi <= |b| < 0x8000_0000
    ensures var v := LongLong(a.low, a.hi);
            var element := if IsText(pf.ptype) then
                             (if a.wireId % 8 == 2 then Some(Text(Some(b[a.low..a.hi]), a.hi - a.low)) else None)
                           else if pf.ptype == SInt64 && a.wireId % 8 != 2 then None
                           else Some(Number(if pf.ptype == Enum then v else Heard(pf.ptype, v)));
            UnpackOne(pf, DatumOf(a, b), slot)
            == match element
               case None => None
               case Some(x) => Some(if pf.ctype == CVar then Single(x) else Array(slot.items + [x]))
  {
    RawHeard(pf.ptype, a.Number());
    if IsText(pf.ptype) && a.wireId % 8 == 2 { SliceThere(a, b); }
    hide Heard;
    hide Raw;
    hide SliceOf;
  }

  lemma SliceThere(a: Atom, b: seq<byte>)
    requires 2 <= a.low <= a.hi <= |b| < 0x8000_0000
    ensures SliceOf(b, a.Start(), a.Size()) == b[a.low..a.hi]
  {
    assert a.Start() == a.low && a.Size() == a.hi - a.low;
  }

  lemma RawHeard(ptype: PType, v: LongLong)
    ensures Raw(ptype, v) == if ptype == Enum then v else Heard(ptype, v)
  {
    HeardIs(ptype, v);
    hide Heard;
  }

  lemma StoredIs(ctype: CType, a: Atom, ptype: PType, was: u64)
    requires was < Limit(ctype)
    ensures var v := if ptype == Enum then a.Number() else Heard(ptype, a.Number());
            Store(ctype, v, was) == Stored(ctype, v, was) < Limit(ctype)
  {
    StoreFits(ctype, if ptype == Enum then a.Number() else Heard(ptype, a.Number()), was);
    hide Heard;
    hide Narrow;
  }

  /** What a member gets that no atom is for: the default of its field, cut to its own width, an empty array, or a
      slice of the default, which for bytes is an empty one and for a message none. */
  lemma DefaultSpelled(pf: PatternField, slot: Slot)
    requires OutFits(pf, slot)
    ensures Default(pf, slot)
         == match pf.ctype
            case CArray => Array([])
            case CPacked => Array([])
            case CVar =>
              Single(if pf.ptype == String then Text(Some(pf.defaultText), |pf.defaultText|)
                     else if pf.ptype == PType.Bytes then Text(if pf.defaultText == [] then Some([]) else None, 0)
                     else Text(None, pf.defaultLen))
            case CInt16 => Scalar(pf.default.low % 0x1_0000)
            case CFloat => Scalar(Narrow(pf.default))
            case CInt8 => Scalar(pf.default.low % 0x100)
            case CBool => Scalar(if pf.default.low == 0 then 0 else 1)
            case CInt32 => Scalar(pf.default.low)
            case _ => Scalar(pf.default.low + 0x1_0000_0000 * pf.default.hi)
  {
    hide Narrow;
  }
}
