/** The byte buffer of a message being written (lualib-src/pbc/src/wmessage.c). */
module Writers {
  import opened Words
  import opened Varints
  import opened Wire
  import opened Schemas
  import opened Reals

  const WMESSAGE_SIZE := 64

  /** `struct _packed`, with the key it is filed under. */
  datatype PackedField = PackedField(key: string, id: int, ptype: PType, data: seq<LongLong>)

  /** The packed fields after one more number for field `f`: it joins the numbers already there,
      or the table gains an entry, and then its slots may come in any order. */
  ghost predicate PackedAdded(was: seq<PackedField>, now: seq<PackedField>, f: Field, v: LongLong) {
    if exists k :: 0 <= k < |was| && was[k].key == f.name then
      exists k :: 0 <= k < |was| && was[k].key == f.name && now == was[k := was[k].(data := was[k].data + [v])]
    else multiset(now) == multiset(was + [PackedField(f.name, f.id, f.ptype, [v])])
  }

  ghost predicate KeysDistinct(packed: seq<PackedField>) {
    forall k, l :: 0 <= k < l < |packed| ==> packed[k].key != packed[l].key
  }

  /** What a single number becomes, by the type of its field; other types take no number. */
  function NumberPayload(ptype: PType, v: LongLong): Option<Payload> {
    match ptype
    case Int64 | UInt64 | Int32 => Some(VarintValue(Join(v)))
    case UInt32 | Enum | Bool => Some(VarintValue(v.low))
    case Fixed64 | SFixed64 => Some(Fixed64Value(v))
    case Fixed32 | SFixed32 => Some(Fixed32Value(v.low))
    case SInt32 => Some(VarintValue(ZigZag32(v.low)))
    case SInt64 => Some(VarintValue(ZigZag64(Join(v))))
    case _ => None
  }

  /** What a single number becomes when its bits are those of a double where the type is a floating one. */
  function ValuePayload(ptype: PType, v: LongLong): Option<Payload> {
    if ptype == Double then Some(Fixed64Value(v))
    else if ptype == Float then Some(Fixed32Value(Narrow(v)))
    else NumberPayload(ptype, v)
  }

  /** What a single number becomes: `pbc_wmessage_real` is for doubles and fields of a floating type, and
      `pbc_wmessage_integer` for the others. */
  function WrittenPayload(ptype: PType, v: LongLong, asDouble: bool): Option<Payload> {
    if !asDouble then NumberPayload(ptype, v)
    else if ptype == Double || ptype == Float then ValuePayload(ptype, v)
    else None
  }

  /** The word or words of a packed number that are sent: a double is cut to a float for a field of that type. */
  function Sent(ptype: PType, v: LongLong): LongLong { if ptype == Float then LongLong(Narrow(v), 0) else v }

  function AllSent(ptype: PType, data: seq<LongLong>): (r: seq<LongLong>)
    ensures |r| == |data| && forall k :: 0 <= k < |data| ==> r[k] == Sent(ptype, data[k])
  {
    seq(|data|, k requires 0 <= k < |data| => Sent(ptype, data[k]))
  }

  predicate IsFixed64(p: PType) { p in {Double, Fixed64, SFixed64} }

  predicate IsFixed32(p: PType) { p in {Float, Fixed32, SFixed32} }

  function PackedPayload(ptype: PType, data: seq<LongLong>): seq<byte> {
    if IsFixed64(ptype) then FixedPayload(data)
    else if IsFixed32(ptype) then NarrowPayload(AllSent(ptype, data))
    else VarintPayload(ptype, data)
  }

  /** The source spaces packed 32-bit numbers eight bytes apart and announces four bytes for
      each, so that only a field of at most one number comes out right. */
  predicate PackedFits(ptype: PType, data: seq<LongLong>) {
    10 * |data| < 0x8000_0000 && (IsFixed32(ptype) ==> |data| <= 1)
  }

  /** The bytes of one element of a packed field that is not of fixed width. */
  function ElementBytes(ptype: PType, v: LongLong): seq<byte> {
    match ptype
    case Int64 | UInt64 => Varint(Join(v))
    case Int32 | Bool | UInt32 | Enum => Varint(v.low)
    case SInt32 => Varint(ZigZag32(v.low))
    case SInt64 => Varint(ZigZag64(Join(v)))
    case _ => [0]
  }

  predicate IsVarint(ptype: PType) {
    ptype in {Int64, UInt64, Int32, Bool, UInt32, Enum, SInt32, SInt64}
  }

  function VarintPayload(ptype: PType, data: seq<LongLong>): seq<byte> {
    if data == [] then []
    else VarintPayload(ptype, data[..|data| - 1]) + ElementBytes(ptype, data[|data| - 1])
  }

  function FixedPayload(data: seq<LongLong>): (b: seq<byte>)
    ensures |b| == 8 * |data| && |b| % 8 == 0
  {
    if data == [] then []
    else FixedPayload(data[..|data| - 1]) + Bytes64(data[|data| - 1])
  }

  function NarrowPayload(data: seq<LongLong>): (b: seq<byte>)
    ensures |b| == 4 * |data| && |b| % 4 == 0
  {
    if data == [] then []
    else NarrowPayload(data[..|data| - 1]) + Bytes32(data[|data| - 1].low)
  }

  /** Where the last store of `_pack_packed_32` ends, seen from the end of the header. */
  function Span(n: nat): nat { if n == 0 then 0 else 8 * (n - 1) + 4 }

  /** What `_pack_packed_32` leaves in the `room` behind the header: number `i` lies at `8 * i`. */
  function Strided(data: seq<LongLong>, room: seq<byte>): (b: seq<byte>)
    requires |room| >= Span(|data|)
    ensures |b| == |room|
  {
    if data == [] then room
    else Splice(Strided(data[..|data| - 1], room), 8 * (|data| - 1), Bytes32(data[|data| - 1].low))
  }

  lemma {:induction false} StridedGap(data: seq<LongLong>, room: seq<byte>)
    requires |room| >= Span(|data|) && data != []
    ensures |data| >= 2 ==> Strided(data, room)[4..8] == room[4..8]
    ensures Strided(data, room)[..4] == Bytes32(data[0].low)
  {
    hide Bytes32;
    var n := |data| - 1;
    var was, w := Strided(data[..n], room), Bytes32(data[n].low);
    var now := Splice(was, 8 * n, w);
    if n > 0 {
      StridedGap(data[..n], room);
      assert now[..8 * n] == was[..8 * n];
      assert now[4..8] == now[..8 * n][4..8] && now[..4] == now[..8 * n][..4];
      assert was[4..8] == was[..8 * n][4..8] && was[..4] == was[..8 * n][..4];
      if n == 1 { assert was[4..8] == room[4..8]; }
    } else {
      assert now[..4] == w;
    }
  }

  /** The bytes announced come out right when the buffer holds `room`. */
  predicate StridedRight(data: seq<LongLong>, room: seq<byte>)
    requires |room| >= Span(|data|)
  {
    4 * |data| <= |room| && Strided(data, room)[..4 * |data|] == NarrowPayload(data)
  }

  lemma StridedWrong(data: seq<LongLong>) returns (room: seq<byte>)
    requires |data| >= 2
    ensures |room| == Span(|data|) && !StridedRight(data, room)
  {
    hide *;
    SpanIs(|data|);
    var w := NarrowPayload(data)[4];
    var other: byte := if w == 0 then 1 else 0;
    room := seq(Span(|data|), _ => other);
    StridedGap(data, room);
    var b := Strided(data, room);
    assert room[4..8][0] == room[4] != w;
    assert b[4..8][0] == b[4] == b[..4 * |data|][4];
    StridedIs(data, room);
  }

  lemma SpanIs(n: nat)
    ensures Span(n) == if n == 0 then 0 else 8 * n - 4
    ensures n >= 2 ==> 4 * n <= Span(n) && Span(n) >= 12
  {
  }

  lemma StridedIs(data: seq<LongLong>, room: seq<byte>)
    requires 4 * |data| <= |room| && |room| >= Span(|data|)
    ensures StridedRight(data, room) <==> Strided(data, room)[..4 * |data|] == NarrowPayload(data)
  {
  }

  /** The four bytes announced for each number hold the numbers, whatever lay in the buffer
      before, exactly when there is at most one number. */
  lemma StridedExact(data: seq<LongLong>)
    ensures (forall room: seq<byte> :: |room| >= Span(|data|) ==> StridedRight(data, room)) <==> |data| <= 1
  {
    if |data| >= 2 {
      var room := StridedWrong(data);
    } else {
      forall room: seq<byte> | |room| >= Span(|data|) ensures StridedRight(data, room) {
        if |data| == 1 { StridedGap(data, room); }
      }
    }
  }

  /** The capacity of a buffer once there is room for `sz` bytes from its beginning. */
  function Grown(cap: nat, sz: nat): (r: nat)
    requires cap > 0
    ensures r >= cap && r >= sz && (sz <= cap ==> r == cap) && (sz > cap ==> r < 2 * sz)
    decreases sz - cap
  {
    if sz <= cap then cap else Grown(2 * cap, sz)
  }

  /** Header and numbers stay inside the `left` bytes behind the place of the header. */
  predicate StaysIn(n: nat, left: nat) { |Varint(4 * n)| + Span(n) <= left }

  /** Room is made for ten bytes and four for each number, and there may be just as much. All numbers
      lie inside for certain exactly when there are at most three. */
  lemma StridedInside(n: nat)
    requires 4 * n < 0x1_0000_0000
    ensures (forall left: nat :: left >= 10 + 4 * n ==> StaysIn(n, left)) <==> n <= 3
  {
    Widths(4 * n);
    VarintSteps(4 * n);
    hide Varint;
    if n > 3 { assert !StaysIn(n, 10 + 4 * n); }
  }

  lemma StaysInIs(n: nat, left: nat)
    requires StaysIn(n, left) && 4 * n < 0x1_0000_0000
    ensures |Varint(4 * n)| <= 10 && |Varint(4 * n)| + Span(n) <= left
  {
    Widths(4 * n);
  }

  lemma ElementWidth(ptype: PType, v: LongLong)
    ensures 1 <= |ElementBytes(ptype, v)| <= 10
  {
    Widths(Join(v));
    Widths(v.low);
    Widths(ZigZag32(v.low));
    Widths(ZigZag64(Join(v)));
  }

  lemma {:induction false} PayloadWidth(ptype: PType, data: seq<LongLong>)
    ensures |data| <= |VarintPayload(ptype, data)| <= 10 * |data|
  {
    hide ElementBytes;
    if data != [] {
      PayloadWidth(ptype, data[..|data| - 1]);
      ElementWidth(ptype, data[|data| - 1]);
    }
  }

  /** Where the writer reports a type error it still writes one zero for each element. */
  lemma {:induction false} ZeroPayload(ptype: PType, data: seq<LongLong>)
    requires !IsVarint(ptype)
    ensures VarintPayload(ptype, data) == seq(|data|, _ => 0)
  {
    if data != [] { ZeroPayload(ptype, data[..|data| - 1]); }
  }

  lemma NumberWidth(ptype: PType, v: LongLong)
    ensures NumberPayload(ptype, v).Some? ==> |PayloadBytes(NumberPayload(ptype, v).value)| <= 10
  {
    Widths(Join(v));
    Widths(v.low);
    Widths(ZigZag32(v.low));
    Widths(ZigZag64(Join(v)));
    hide Varint;
    hide Join;
    hide ZigZag32;
    hide ZigZag64;
  }

  /** The record of bytes behind what is there. */
  lemma LendBytes(id: nat, b: seq<byte>)
    ensures forall was: seq<byte> ::
              was + (Varint(8 * id + WT_LEND) + Varint(|b|)) + b == was + RecordBytes(Record(id, Payload.Bytes(b)))
  {
    hide Varint;
    var tag, len := Varint(8 * id + WT_LEND), Varint(|b|);
    assert RecordBytes(Record(id, Payload.Bytes(b))) == tag + (len + b);
    forall was: seq<byte> ensures was + (tag + len) + b == was + (tag + (len + b)) { }
  }

  lemma ThreeParts(s: seq<byte>, n: nat, a: seq<byte>, b: seq<byte>, c: seq<byte>)
    requires n <= |s| && s[..n] == a + b + c
    ensures s[..|a|] == a && s[|a|..|a| + |b|] == b && s[|a| + |b|..n] == c
  {
    var w := s[..n];
    assert s[..|a|] == w[..|a|];
    assert s[|a|..|a| + |b|] == w[|a|..|a| + |b|];
    assert s[|a| + |b|..n] == w[|a| + |b|..];
  }

  /** What a buffer holds once a payload behind a header has moved. */
  lemma MovedParts(now: seq<byte>, was: seq<byte>, offset: nat, width: nat, width': nat, n: nat)
    requires |was| == offset + width + n && was <= now && offset + width' + n <= |now|
    ensures var moved := Splice(now, offset + width', now[offset + width..offset + width + n]);
            && moved[..offset] == was[..offset]
            && moved[offset + width'..offset + width' + n] == was[offset + width..]
  {
  }

  class Writer {
    var buffer: array<byte>
    var ptr: nat
    var endptr: nat

    ghost predicate Sound()
      reads this, buffer
    {
      endptr == buffer.Length > 0 && ptr <= endptr
    }

    ghost function Written(): seq<byte>
      reads this, buffer
      requires Sound()
    {
      buffer[..ptr]
    }

    constructor ()
      ensures Sound() && fresh(buffer) && Written() == [] && endptr == 64
    {
      buffer := new byte[WMESSAGE_SIZE];
      ptr, endptr := 0, WMESSAGE_SIZE;
    }

    /** `_expand_message`: room for `sz` more bytes, in a copy if need be. */
    method Expand(sz: nat)
      requires Sound()
      modifies this
      ensures Sound() && ptr == old(ptr) && ptr + sz <= endptr == Grown(old(endptr), ptr + sz)
      ensures buffer == old(buffer) || fresh(buffer)
      ensures Written() == old(Written())
    {
      if ptr + sz > endptr {
        var cap := endptr;
        while true
          invariant cap > 0 && Grown(cap, ptr + sz) == Grown(endptr, ptr + sz) && cap < ptr + sz
          decreases ptr + sz - cap
        {
          cap := cap * 2;
          if ptr + sz <= cap { break; }
        }
        var copy := new byte[cap];
        forall i | 0 <= i < ptr { copy[i] := buffer[i]; }
        assert copy[..ptr] == buffer[..ptr];
        endptr := cap;
        buffer := copy;
      }
    }

    /** `m->ptr += _pbcV_encode32(n, m->ptr)` */
    method Put32(n: u32) returns (len: nat)
      requires Sound() && ptr + |Varint(n)| <= endptr
      modifies this`ptr, buffer
      ensures Sound() && len == |Varint(n)| && ptr == old(ptr) + len
      ensures Written() == old(Written()) + Varint(n)
    {
      hide Varint;
      len := Encode32(n, buffer, ptr);
      ptr := ptr + len;
    }

    /** `m->ptr += _pbcV_encode(n, m->ptr)` */
    method Put64(n: u64)
      requires Sound() && ptr + |Varint(n)| <= endptr
      modifies this`ptr, buffer
      ensures Sound() && ptr == old(ptr) + |Varint(n)|
      ensures Written() == old(Written()) + Varint(n)
    {
      hide Varint;
      var len := Encode64(n, buffer, ptr);
      ptr := ptr + len;
    }

    /** `memcpy(m->ptr, b, |b|); m->ptr += |b|` */
    method PutBytes(b: seq<byte>)
      requires Sound() && ptr + |b| <= endptr
      modifies this`ptr, buffer
      ensures Sound() && ptr == old(ptr) + |b|
      ensures Written() == old(Written()) + b
    {
      forall i | 0 <= i < |b| { buffer[ptr + i] := b[i]; }
      assert buffer[..ptr] == old(buffer[..ptr]);
      assert buffer[ptr..ptr + |b|] == b;
      ptr := ptr + |b|;
      assert buffer[..ptr] == old(buffer[..ptr]) + buffer[old(ptr)..ptr];
    }

    /** `int64_encode` at some place past `from`. */
    method StoreWord64(at: nat, w: LongLong, ghost from: nat)
      requires from <= at && at + 8 <= buffer.Length
      modifies buffer
      ensures buffer[..from] == old(buffer[..from])
      ensures buffer[from..at + 8] == old(buffer[from..at]) + Bytes64(w)
    {
      ghost var was := buffer[..];
      var b := Bytes64(w);
      Overwrite(buffer, at, b);
      assert buffer[..from] == buffer[..][..from] == was[..from];
      assert buffer[from..at + 8] == buffer[..][from..at + 8] == was[from..at] + b;
    }

    /** `_pack_packed_64` */
    method PackFixed64(data: seq<LongLong>)
      requires Sound() && 8 * |data| < 0x1_0000_0000
      modifies this, buffer
      ensures Sound() && (buffer == old(buffer) || fresh(buffer))
      ensures Written() == old(Written()) + Varint(8 * |data|) + FixedPayload(data)
    {
      hide Varint;
      hide Bytes64;
      var n := |data|;
      var len := n * 8;
      Widths(len);
      Expand(10 + len);
      var _ := Put32(len);
      ghost var before := Written();
      StoreWords(data);
      ptr := ptr + len;
      assert buffer[..ptr] == before + FixedPayload(data);
    }

    method StoreWords(data: seq<LongLong>)
      requires Sound() && ptr + 8 * |data| <= endptr
      modifies buffer
      ensures Sound() && Written() == old(Written())
      ensures buffer[ptr..ptr + 8 * |data|] == FixedPayload(data)
    {
      hide Bytes64;
      for i := 0 to |data|
        invariant Sound() && Written() == old(Written())
        invariant buffer[ptr..ptr + i * 8] == FixedPayload(data[..i])
      {
        assert data[..i + 1][..i] == data[..i];
        StoreWord64(ptr + i * 8, data[i], ptr);
      }
      assert data[..|data|] == data;
    }

    /** One turn of the loops of `_pack_packed_varint`. */
    method PutElement(ptype: PType, v: LongLong)
      requires Sound() && IsVarint(ptype)
      modifies this, buffer
      ensures Sound() && (buffer == old(buffer) || fresh(buffer))
      ensures Written() == old(Written()) + ElementBytes(ptype, v)
      ensures ptr == old(ptr) + |ElementBytes(ptype, v)|
    {
      hide Varint;
      ElementWidth(ptype, v);
      Expand(10);
      match ptype {
        case Int64 | UInt64 => Put64(Join(v));
        case Int32 | Bool | UInt32 | Enum => var _ := Put32(v.low);
        case SInt32 => var _ := Put32(ZigZag32(v.low));
        case SInt64 => Put64(ZigZag64(Join(v)));
      }
    }

    /** `_pack_packed_varint`: the length is guessed, and header and payload put right
        afterwards. */
    method PackVarint(ptype: PType, data: seq<LongLong>)
      requires Sound() && 10 * |data| < 0x1_0000_0000
      modifies this, buffer
      ensures Sound() && (buffer == old(buffer) || fresh(buffer))
      ensures Written() == old(Written()) + Varint(|VarintPayload(ptype, data)|) + VarintPayload(ptype, data)
    {
      hide *;
      var n, offset := |data|, ptr;
      var len := if ptype == Bool then n else n * 2;
      PayloadWidth(ptype, data);
      Widths(len);
      ghost var before, payload := Written(), VarintPayload(ptype, data);
      WrittenParts(0, 0);
      Expand(10 + len);
      var lenLen := Put32(len);
      PutPayload(ptype, data);
      WrittenParts(0, 0);
      ThreeParts(buffer[..], ptr, before, Varint(len), payload);
      FixHeader(offset, lenLen, len, payload);
    }

    method PutPayload(ptype: PType, data: seq<LongLong>)
      requires Sound() && (!IsVarint(ptype) ==> ptr + |data| <= endptr)
      modifies this, buffer
      ensures Sound() && (buffer == old(buffer) || fresh(buffer))
      ensures Written() == old(Written()) + VarintPayload(ptype, data)
    {
      hide *;
      if IsVarint(ptype) {
        PutElements(ptype, data);
      } else {
        ZeroPayload(ptype, data);
        PutBytes(seq(|data|, _ => 0));
      }
    }

    /** The loops over the elements. */
    method PutElements(ptype: PType, data: seq<LongLong>)
      requires Sound() && IsVarint(ptype)
      modifies this, buffer
      ensures Sound() && (buffer == old(buffer) || fresh(buffer))
      ensures Written() == old(Written()) + VarintPayload(ptype, data)
    {
      hide ElementBytes;
      ghost var before := Written();
      for i := 0 to |data|
        invariant Sound() && (buffer == old(buffer) || fresh(buffer))
        invariant Written() == before + VarintPayload(ptype, data[..i])
      {
        assert data[..i + 1][..i] == data[..i];
        PutElement(ptype, data[i]);
      }
      assert data[..|data|] == data;
    }

    /** The payload of `n` bytes behind a header of `width` bytes moves to make room for a
        header of `width'` bytes. */
    method MovePayload(offset: nat, width: nat, width': nat, n: nat)
      requires Sound() && ptr == offset + width + n
      modifies this, buffer
      ensures Sound() && (buffer == old(buffer) || fresh(buffer)) && ptr == offset + width' + n
      ensures buffer[..offset] == old(buffer[..offset])
      ensures buffer[offset + width'..ptr] == old(buffer[offset + width..ptr])
    {
      hide *;
      ghost var was := Written();
      WrittenParts(offset, width);
      Expand(width');
      ghost var now := buffer[..];
      WrittenParts(offset, width);
      Move(buffer, offset + width', offset + width, n);
      MovedParts(now, was, offset, width, width', n);
      ptr := ptr + width' - width;
      Fits();
      assert buffer[..offset] == buffer[..][..offset]
             && buffer[offset + width'..ptr] == buffer[..][offset + width'..ptr];
    }

    lemma Fits()
      requires endptr == buffer.Length > 0 && ptr <= endptr
      ensures Sound()
    {
    }

    /** The parts of what is written. */
    lemma WrittenParts(offset: nat, width: nat)
      requires Sound() && offset + width <= ptr
      ensures endptr == buffer.Length > 0 && ptr <= endptr && |Written()| == ptr && Written() <= buffer[..]
      ensures buffer[..offset] == Written()[..offset] && buffer[offset + width..ptr] == Written()[offset + width..]
    {
    }

    /** The end of `_pack_packed_varint`: behind `offset` lie a header of `lenLen` bytes, which
        announces `len` bytes, and the payload; the header becomes the payload's true length,
        and the payload moves when the header changes its width. */
    method FixHeader(offset: nat, lenLen: nat, len: nat, ghost payload: seq<byte>)
      requires Sound() && lenLen == |Varint(len)| && ptr == offset + lenLen + |payload|
      requires buffer[offset..offset + lenLen] == Varint(len) && buffer[offset + lenLen..ptr] == payload
      requires |payload| < 0x1_0000_0000
      modifies this, buffer
      ensures Sound() && (buffer == old(buffer) || fresh(buffer))
      ensures Written() == old(buffer[..offset]) + Varint(|payload|) + payload
    {
      hide Varint;
      var endLen := ptr - (offset + lenLen);
      if endLen != len {
        var temp := new byte[10];
        Widths(endLen);
        var endLenLen := Encode32(endLen, temp, 0);
        assert temp[..endLenLen] == temp[..][..endLenLen] == Varint(endLen);
        if endLenLen != lenLen {
          MovePayload(offset, lenLen, endLenLen, endLen);
        }
        WriteHeader(offset, temp[..endLenLen]);
      } else {
        assert buffer[..ptr] == buffer[..offset] + buffer[offset..offset + lenLen] + buffer[offset + lenLen..ptr];
      }
    }

    method WriteHeader(offset: nat, header: seq<byte>)
      requires Sound() && offset + |header| <= ptr
      modifies buffer
      ensures Sound() && Written() == old(buffer[..offset]) + header + old(buffer[offset + |header|..ptr])
    {
      ghost var was := buffer[..];
      Overwrite(buffer, offset, header);
      assert buffer[..ptr] == buffer[..][..ptr];
      assert was[..offset] == old(buffer[..offset]);
      assert was[offset + |header|..ptr] == old(buffer[offset + |header|..ptr]);
      assert Splice(was, offset, header)[..ptr] == was[..offset] + header + was[offset + |header|..ptr];
    }

    /** `_pack_packed_32`, for the words that are sent; it writes to memory that may lie behind the buffer. As long
        as it does not, it leaves numbers eight bytes apart in what the buffer held before. */
    method PackFixed32(data: seq<LongLong>) returns (ghost room: seq<byte>)
      requires Sound() && 4 * |data| < 0x1_0000_0000
      requires StaysIn(|data|, Grown(endptr, ptr + 10 + 4 * |data|) - ptr)
      modifies this, buffer
      ensures Sound() && (buffer == old(buffer) || fresh(buffer))
      ensures 4 * |data| <= |room| && Span(|data|) <= |room|
      ensures Written() == old(Written()) + Varint(4 * |data|) + Strided(data, room)[..4 * |data|]
    {
      hide *;
      var len := |data| * 4;
      BeginFixed32(|data|);
      WrittenParts(0, 0);
      room := buffer[ptr..];
      ghost var before := Written();
      StoreStrided(data);
      WrittenParts(0, 0);
      AfterWritten(before, Strided(data, room), len);
      ptr := ptr + len;
      Fits();
      AllWritten();
    }

    /** Room is made, and the length written. */
    method BeginFixed32(n: nat)
      requires Sound() && 4 * n < 0x1_0000_0000
      requires StaysIn(n, Grown(endptr, ptr + 10 + 4 * n) - ptr)
      modifies this, buffer
      ensures Sound() && (buffer == old(buffer) || fresh(buffer))
      ensures Written() == old(Written()) + Varint(4 * n) && ptr + Span(n) <= endptr && ptr + 4 * n <= endptr
    {
      hide *;
      WrittenParts(0, 0);
      StaysInIs(n, Grown(endptr, ptr + 10 + 4 * n) - ptr);
      Expand(10 + 4 * n);
      var _ := Put32(4 * n);
      WrittenParts(0, 0);
    }

    lemma AllWritten()
      requires Sound()
      ensures Written() == buffer[..ptr]
    {
    }

    /** What is written, and as many of the bytes behind it. */
    lemma AfterWritten(was: seq<byte>, behind: seq<byte>, n: nat)
      requires Sound() && Written() == was && ptr + n <= endptr && buffer[ptr..] == behind
      ensures n <= |behind| && buffer[..ptr + n] == was + behind[..n]
    {
    }

    method StoreStrided(data: seq<LongLong>)
      requires Sound() && ptr + Span(|data|) <= endptr
      modifies buffer
      ensures Sound() && Written() == old(Written())
      ensures buffer[ptr..] == Strided(data, old(buffer[ptr..]))
    {
      hide Bytes32;
      ghost var was, room := buffer[..ptr], buffer[ptr..];
      for i := 0 to |data|
        invariant Sound() && buffer[..ptr] == was && buffer[ptr..] == Strided(data[..i], room)
      {
        ghost var mid := buffer[ptr..];
        assert data[..i + 1][..i] == data[..i];
        Overwrite(buffer, ptr + i * 8, Bytes32(data[i].low));
        assert buffer[..ptr] == buffer[..][..ptr] == was;
        assert buffer[ptr..] == buffer[..][ptr..] == Splice(mid, 8 * i, Bytes32(data[i].low));
      }
      assert data[..|data|] == data;
    }

    /** The same for at most one number. */
    method PackFewFixed32(data: seq<LongLong>)
      requires Sound() && |data| <= 1
      modifies this, buffer
      ensures Sound() && (buffer == old(buffer) || fresh(buffer))
      ensures Written() == old(Written()) + Varint(4 * |data|) + NarrowPayload(data)
    {
      StridedInside(|data|);
      StridedExact(data);
      var room := PackFixed32(data);
      hide *;
      StridedIs(data, room);
    }

    /** `id << 3 | wt` as a varint of at most five bytes. */
    method PutTag(id: nat, wt: nat)
      requires Sound() && id < 0x1000_0000 && wt < 8 && ptr + 5 <= endptr
      modifies this`ptr, buffer
      ensures Sound() && ptr <= old(ptr) + 5
      ensures Written() == old(Written()) + Varint(8 * id + wt)
    {
      Widths(8 * id + wt);
      hide Varint;
      var _ := Put32(8 * id + wt);
    }

    /** `_pack_packed` */
    method PutPacked(id: nat, ptype: PType, data: seq<LongLong>)
      requires Sound() && id < 0x1000_0000 && PackedFits(ptype, data)
      modifies this, buffer
      ensures Sound() && (buffer == old(buffer) || fresh(buffer))
      ensures Written() == old(Written()) + RecordBytes(Record(id, Payload.Bytes(PackedPayload(ptype, data))))
    {
      hide Varint;
      hide PackedPayload;
      hide PackedFits;
      Expand(10);
      ghost var was, p := Written(), PackedPayload(ptype, data);
      PutTag(id, WT_LEND);
      PackPayload(ptype, data);
      ghost var tag, len := Varint(8 * id + WT_LEND), Varint(|p|);
      assert was + tag + len + p == was + (tag + (len + p));
    }

    method PackPayload(ptype: PType, data: seq<LongLong>)
      requires Sound() && PackedFits(ptype, data)
      modifies this, buffer
      ensures Sound() && (buffer == old(buffer) || fresh(buffer))
      ensures Written() == old(Written()) + Varint(|PackedPayload(ptype, data)|) + PackedPayload(ptype, data)
    {
      hide Varint;
      hide VarintPayload;
      hide FixedPayload;
      hide NarrowPayload;
      hide Bytes32;
      hide Sent;
      match ptype {
        case Double | Fixed64 | SFixed64 => PackFixed64(data);
        case Float | Fixed32 | SFixed32 => PackFewFixed32(AllSent(ptype, data));
        case _ => PackVarint(ptype, data);
      }
    }

    /** The switch of `pbc_wmessage_integer`. */
    method PutNumber(id: nat, ptype: PType, v: LongLong)
      requires Sound() && id < 0x1000_0000
      modifies this, buffer
      ensures Sound() && (buffer == old(buffer) || fresh(buffer))
      ensures Written() == old(Written()) + match NumberPayload(ptype, v)
                                            case None => []
                                            case Some(p) => RecordBytes(Record(id, p))
    {
      hide PayloadBytes;
      hide NumberPayload;
      hide Varint;
      Expand(20);
      var p := NumberPayload(ptype, v);
      if p.Some? {
        PutTag(id, WireTypeOf(p.value));
        PutValue(ptype, v);
      }
    }

    method PutValue(ptype: PType, v: LongLong)
      requires Sound() && NumberPayload(ptype, v).Some? && ptr + 10 <= endptr
      modifies this`ptr, buffer
      ensures Sound()
      ensures Written() == old(Written()) + PayloadBytes(NumberPayload(ptype, v).value)
    {
      NumberWidth(ptype, v);
      hide Varint;
      hide Bytes32;
      match ptype {
        case Int64 | UInt64 | Int32 => Put64(Join(v));
        case UInt32 | Enum | Bool => var _ := Put32(v.low);
        case Fixed64 | SFixed64 => PutBytes(Bytes64(v));
        case Fixed32 | SFixed32 => PutBytes(Bytes32(v.low));
        case SInt32 => var _ := Put32(ZigZag32(v.low));
        case SInt64 => Put64(ZigZag64(Join(v)));
      }
    }

    /** The end of `pbc_wmessage_real`. */
    method PutReal(id: nat, ptype: PType, v: LongLong)
      requires Sound() && id < 0x1000_0000
      modifies this, buffer
      ensures Sound() && (buffer == old(buffer) || fresh(buffer))
      ensures Written() == old(Written()) + match WrittenPayload(ptype, v, true)
                                            case None => []
                                            case Some(p) => RecordBytes(Record(id, p))
    {
      hide Varint;
      hide PayloadBytes;
      hide Narrow;
      Expand(18);
      if ptype == Float || ptype == Double {
        PutTag(id, if ptype == Float then WT_BIT32 else WT_BIT64);
        PutDouble(ptype, v);
      }
    }

    method PutDouble(ptype: PType, v: LongLong)
      requires Sound() && (ptype == Float || ptype == Double) && ptr + 8 <= endptr
      modifies this`ptr, buffer
      ensures Sound() && Written() == old(Written()) + PayloadBytes(WrittenPayload(ptype, v, true).value)
    {
      hide Narrow;
      hide Bytes32;
      hide Bytes64;
      if ptype == Float {
        PutBytes(Bytes32(Narrow(v)));
      } else {
        PutBytes(Bytes64(v));
      }
    }

    /** The end of `pbc_wmessage_string` for strings and bytes. */
    method PutText(id: nat, text: seq<byte>)
      requires Sound() && id < 0x1000_0000 && |text| < 0x8000_0000
      modifies this, buffer
      ensures Sound() && (buffer == old(buffer) || fresh(buffer))
      ensures Written() == old(Written()) + RecordBytes(Record(id, Payload.Bytes(text)))
    {
      hide *;
      WrittenParts(0, 0);
      LendBytes(id, text);
      Expand(20);
      PutTagAndLength(id, |text|);
      WrittenParts(0, 0);
      Expand(|text|);
      PutBytes(text);
    }

    /** Tag and length of a record of bytes. */
    method PutTagAndLength(id: nat, n: nat)
      requires Sound() && id < 0x1000_0000 && n < 0x8000_0000 && ptr + 10 <= endptr
      modifies this`ptr, buffer
      ensures Sound() && ptr <= old(ptr) + 10
      ensures Written() == old(Written()) + (Varint(8 * id + WT_LEND) + Varint(n))
    {
      assert WT_LEND == 2;
      hide *;
      Widths(8 * id + WT_LEND);
      Widths(n);
      ghost var was := Written();
      var _ := Put32(8 * id + WT_LEND);
      var _ := Put32(n);
      assert was + Varint(8 * id + WT_LEND) + Varint(n) == was + (Varint(8 * id + WT_LEND) + Varint(n));
    }

    /** One turn of the loop over the sub-messages in `pbc_wmessage_buffer`. */
    method PutSub(id: nat, bytes: seq<byte>)
      requires Sound() && id < 0x1000_0000 && |bytes| < 0x8000_0000
      modifies this, buffer
      ensures Sound() && (buffer == old(buffer) || fresh(buffer))
      ensures Written() == old(Written()) + RecordBytes(Record(id, Payload.Bytes(bytes)))
    {
      hide *;
      WrittenParts(0, 0);
      LendBytes(id, bytes);
      Expand(20 + |bytes|);
      PutTagAndLength(id, |bytes|);
      WrittenParts(0, 0);
      PutBytes(bytes);
    }
  }
}
