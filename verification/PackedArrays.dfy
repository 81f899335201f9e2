/** Arrays of numbers in one length-delimited field: `_pbcP_unpack_packed` of
    lualib-src/pbc/src/pattern.c. */
module PackedArrays {
  import opened Words
  import opened Varints
  import opened Wire
  import opened Schemas
  import opened Reals

  /** The number that is made of the two words found: ZigZag is undone, and a float becomes a double. */
  function Raw(ptype: PType, v: LongLong): LongLong {
    match ptype
    case SInt32 => Dezigzag32(v)
    case SInt64 => Dezigzag64(v)
    case Float => Widen(v.low)
    case _ => v
  }

  predicate IsNumeric(ptype: PType) { ptype !in {String, PType.Bytes, PType.Message, Group} }

  function FixedWidth(ptype: PType): nat {
    match ptype
    case Double | Fixed64 | SFixed64 => 8
    case Float | Fixed32 | SFixed32 => 4
    case _ => 0
  }

  /** The numbers at the head of `b`, up to a varint that is cut short. */
  function VarintNumbers(ptype: PType, b: seq<byte>): seq<LongLong>
    decreases |b|
  {
    if b == [] then []
    else match ReadVarint(b)
         case None => []
         case Some((n, v)) => [Raw(ptype, v)] + VarintNumbers(ptype, b[n..])
  }

  /** Whether `b` ends where a varint ends. */
  predicate WholeVarints(b: seq<byte>)
    decreases |b|
  {
    b == [] || match ReadVarint(b)
               case None => false
               case Some((n, _)) => WholeVarints(b[n..])
  }

  function FixedWord(b: seq<byte>): LongLong
    requires |b| == 4 || |b| == 8
  {
    LongLong(Word32(b[..4]), if |b| == 8 then Word32(b[4..]) else 0)
  }

  /** `n` bytes are a whole number of words of `w` bytes, and that number. */
  predicate Aligned(w: nat, n: nat) { if w == 4 then n % 4 == 0 else w == 8 && n % 8 == 0 }

  function WordCount(w: nat, n: nat): nat { if w == 4 then n / 4 else n / 8 }

  lemma AlignedRest(w: nat, n: nat)
    requires Aligned(w, n) && n > 0
    ensures n >= w && Aligned(w, n - w) && WordCount(w, n) == 1 + WordCount(w, n - w)
  {
  }

  function FixedWords(ptype: PType, w: nat, b: seq<byte>): (r: seq<LongLong>)
    requires Aligned(w, |b|)
    ensures |r| == WordCount(w, |b|)
    decreases |b|
  {
    if b == [] then [] else
    AlignedRest(w, |b|);
    [Raw(ptype, FixedWord(b[..w]))] + FixedWords(ptype, w, b[w..])
  }

  /** The numbers pushed for a packed field with the bytes `b`. */
  function Unpacked(ptype: PType, b: seq<byte>): seq<LongLong> {
    var w := FixedWidth(ptype);
    if w > 0 then (if Aligned(w, |b|) then FixedWords(ptype, w, b) else [])
    else if IsNumeric(ptype) then VarintNumbers(ptype, b)
    else []
  }

  /** What `_pbcP_unpack_packed` returns. */
  function UnpackedCount(ptype: PType, b: seq<byte>): (n: int)
    ensures n >= 0 ==> n == |Unpacked(ptype, b)|
  {
    var w := FixedWidth(ptype);
    if w > 0 then (if Aligned(w, |b|) then WordCount(w, |b|) else -1)
    else if IsNumeric(ptype) && WholeVarints(b) then |VarintNumbers(ptype, b)|
    else -1
  }

  // ----- what is read ------------------------------------------------------------------------

  /** How many bytes the decoder of varints looks at, for the numbers that begin in the first `size`
      bytes of the memory `m`; `None` when it runs off its end. */
  function Reach(m: seq<byte>, size: nat): (r: Option<nat>)
    ensures r.Some? ==> size <= r.value <= |m|
    decreases |m|
  {
    if size == 0 then Some(0)
    else
      match ReadVarint(m)
      case None => None
      case Some((n, _)) =>
        if n >= size then Some(n)
        else match Reach(m[n..], size - n) case None => None case Some(k) => Some(n + k)
  }

  /** A varint in a part of the memory. */
  lemma ReadPrefix(m: seq<byte>, size: nat)
    requires size <= |m|
    ensures ReadVarint(m).Some? ==>
              ReadVarint(m[..size]) == if ReadVarint(m).value.0 <= size then ReadVarint(m) else None
    ensures ReadVarint(m[..size]).Some? ==> ReadVarint(m) == ReadVarint(m[..size])
  {
    var b := m[..size];
    var k, l := Lead(m), Lead(b);
    LeadPrefix(m, size);
    if l < size { assert b[..l + 1] == m[..l + 1]; }
    hide Groups;
    hide Cut64;
    hide Lead;
    if |m| >= 10 {
      LeadPrefix(m, 10);
      if k < 10 { assert m[..10][..k + 1] == m[..k + 1]; }
      if size >= 10 { assert m[..10] == b[..10]; }
      if k < 9 && k < size { assert b[..k + 1] == m[..k + 1]; }
    }
  }

  lemma LeadPrefix(m: seq<byte>, size: nat)
    requires size <= |m|
    ensures Lead(m[..size]) == if Lead(m) < size then Lead(m) else size
  {
    LeadUnique(m[..size], if Lead(m) < size then Lead(m) else size);
  }

  /** Nothing behind the slice is read exactly when the slice ends where a varint ends. */
  lemma {:induction false} ReachIsSize(m: seq<byte>, size: nat)
    requires size <= |m|
    ensures Reach(m, size) == Some(size) <==> WholeVarints(m[..size])
    decreases |m|
  {
    hide ReadVarint;
    ReadPrefix(m, size);
    if size > 0 && ReadVarint(m).Some? {
      var n := ReadVarint(m).value.0;
      if n < size {
        ReachIsSize(m[n..], size - n);
        assert m[n..][..size - n] == m[..size][n..];
      } else if n == size {
        assert m[..size][n..] == [];
      }
    }
  }

  /** Otherwise at most nine bytes behind it are. */
  lemma {:induction false} ReachIsNear(m: seq<byte>, size: nat)
    requires Reach(m, size).Some?
    ensures size <= Reach(m, size).value <= size + 9
    decreases |m|
  {
    hide ReadVarint;
    if size > 0 {
      var n := ReadVarint(m).value.0;
      if n < size { ReachIsNear(m[n..], size - n); }
    }
  }

  /** Nine bytes behind the slice are enough. */
  lemma {:induction false} ReachEnough(m: seq<byte>, size: nat)
    requires size + 9 <= |m|
    ensures Reach(m, size).Some?
    decreases |m|
  {
    hide ReadVarint;
    if size > 0 {
      ReadEnough(m);
      var n := ReadVarint(m).value.0;
      if n < size { ReachEnough(m[n..], size - n); }
    }
  }

  lemma ReadEnough(m: seq<byte>)
    requires |m| >= 10
    ensures ReadVarint(m).Some?
  {
  }

  /** More memory makes no difference. */
  lemma {:induction false} ReachMore(m: seq<byte>, more: seq<byte>, size: nat)
    requires Reach(m, size).Some?
    ensures Reach(m + more, size) == Reach(m, size)
    decreases |m|
  {
    hide ReadVarint;
    if size > 0 {
      assert (m + more)[..|m|] == m;
      ReadPrefix(m + more, |m|);
      var n := ReadVarint(m).value.0;
      if n < size {
        ReachMore(m[n..], more, size - n);
        assert (m + more)[n..] == m[n..] + more;
      }
    }
  }

  /** A call for numbers of this type and size reads something. */
  predicate ReadsSome(ptype: PType, size: int) {
    size > 0 && IsNumeric(ptype) && (FixedWidth(ptype) > 0 ==> size % FixedWidth(ptype) == 0)
  }

  /** All that is read for the slice of `size` bytes at `at` lies in the memory `m`. */
  predicate Readable(ptype: PType, m: seq<byte>, at: int, size: int) {
    ReadsSome(ptype, size) ==>
      && 0 <= at && at + size <= |m|
      && (FixedWidth(ptype) == 0 ==> Reach(m[at..], size).Some?)
  }

  /** The slice, empty if there is none. */
  function SliceOf(m: seq<byte>, at: int, size: int): seq<byte> {
    if 0 <= at && 0 < size && at + size <= |m| then m[at..at + size] else []
  }

  // The same on memory of any address, which has no end.

  /** How many bytes the decoder looks at when it comes to the byte at `at` after `k` others. */
  function Looks(mem: int -> byte, at: int, k: nat): (n: nat)
    requires k < 10
    ensures k < n <= 10
    decreases 10 - k
  {
    if k == 9 || mem(at) < 0x80 then k + 1 else Looks(mem, at + 1, k + 1)
  }

  /** Where the reading of varints ends. */
  function VarintEnd(mem: int -> byte, at: int, size: int): (end: int)
    ensures end >= at + size && end >= at
    decreases size
  {
    if size <= 0 then at else VarintEnd(mem, at + Looks(mem, at, 0), size - Looks(mem, at, 0))
  }

  /** Where all reading ends; where it begins if nothing is read. */
  function ReadEnd(ptype: PType, mem: int -> byte, at: int, size: int): int {
    if !ReadsSome(ptype, size) then at
    else if FixedWidth(ptype) > 0 then at + size
    else VarintEnd(mem, at, size)
  }

  ghost predicate Holds(mem: int -> byte, m: seq<byte>) { forall i :: 0 <= i < |m| ==> mem(i) == m[i] }

  lemma {:induction false} LooksIs(mem: int -> byte, m: seq<byte>, at: nat, k: nat)
    requires Holds(mem, m) && k < 10 && k <= at && at <= |m|
    requires forall i :: at - k <= i < at ==> m[i] >= 0x80
    ensures var n := Looks(mem, at, k);
            match ReadVarint(m[at - k..])
            case None => at - k + n > |m|
            case Some((len, _)) => n == len
    decreases 10 - k
  {
    hide *;
    var b := m[at - k..];
    ReadLength(b);
    LooksStep(mem, m, at, k);
    if at == |m| {
      LeadUnique(b, |b|);
    } else {
      assert b[k] == m[at];
      if m[at] < 0x80 {
        LeadUnique(b, k);
      } else if k == 9 {
        assert forall i :: 0 <= i < 10 ==> b[i] >= 0x80;
        LeadIsLong(b);
      } else {
        LooksIs(mem, m, at + 1, k + 1);
      }
    }
  }

  lemma LooksStep(mem: int -> byte, m: seq<byte>, at: nat, k: nat)
    requires Holds(mem, m) && k < 10 && at <= |m|
    ensures k < Looks(mem, at, k)
    ensures at < |m| ==> Looks(mem, at, k) == if k == 9 || m[at] < 0x80 then k + 1 else Looks(mem, at + 1, k + 1)
  {
  }

  lemma LeadIsLong(b: seq<byte>)
    requires |b| >= 10 && forall i :: 0 <= i < 10 ==> b[i] >= 0x80
    ensures Lead(b) >= 10
  {
    LeadUnique(b[..10], 10);
    LeadPrefix(b, 10);
  }

  /** The length of a varint. */
  lemma ReadLength(b: seq<byte>)
    ensures match ReadVarint(b)
            case None => |b| < 10 && Lead(b) == |b|
            case Some((n, _)) => n == if Lead(b) < 10 then Lead(b) + 1 else 10
  {
    if |b| >= 10 {
      LeadPrefix(b, 10);
    }
    hide Lead;
    hide Groups;
    hide Cut64;
  }

  lemma {:induction false} VarintEndIs(mem: int -> byte, m: seq<byte>, at: nat, size: nat)
    requires Holds(mem, m) && at <= |m|
    ensures match Reach(m[at..], size)
            case None => VarintEnd(mem, at, size) > |m|
            case Some(k) => VarintEnd(mem, at, size) == at + k
    decreases size
  {
    hide ReadVarint;
    hide Looks;
    if size > 0 {
      LooksIs(mem, m, at, 0);
      var n := Looks(mem, at, 0);
      if at + n <= |m| && n < size {
        VarintEndIs(mem, m, at + n, size - n);
        assert m[at..][n..] == m[at + n..];
      }
    }
  }

  /** The exact condition for all reading to stay in the memory. */
  lemma StaysInside(ptype: PType, mem: int -> byte, m: seq<byte>, at: int, size: int)
    requires Holds(mem, m)
    ensures var end := ReadEnd(ptype, mem, at, size);
            Readable(ptype, m, at, size) <==> end == at || (0 <= at && end <= |m|)
  {
    if ReadsSome(ptype, size) && FixedWidth(ptype) == 0 && 0 <= at && at + size <= |m| {
      VarintEndIs(mem, m, at, size);
    }
    hide VarintEnd;
    hide Reach;
  }

  // ----- unpacking ----------------------------------------------------------------------------

  /** What `_pbcP_unpack_packed` returns for a slice of `size` bytes. */
  function CountOf(ptype: PType, slice: seq<byte>, size: int): (n: int)
    ensures n >= 0 && size == |slice| ==> n == |Unpacked(ptype, slice)|
    ensures size == |slice| ==> n == UnpackedCount(ptype, slice)
  {
    var w := FixedWidth(ptype);
    if w > 0 then (if size % w == 0 then size / w else -1)
    else UnpackedCount(ptype, slice)
  }

  /** `_pbcP_unpack_packed` for the slice of `size` bytes at `at` in the memory `m`. */
  method UnpackPacked(m: seq<byte>, at: int, size: int, ptype: PType, was: seq<LongLong>)
    returns (n: int, r: seq<LongLong>)
    requires Readable(ptype, m, at, size)
    ensures r == was + Unpacked(ptype, SliceOf(m, at, size)) && n == CountOf(ptype, SliceOf(m, at, size), size)
  {
    hide FixedWords;
    hide Reach;
    r := was;
    var w := FixedWidth(ptype);
    if w > 0 {
      if size % w != 0 {
        UnalignedNone(ptype, m, at, size);
        return -1, r;
      }
      var slice := SliceOf(m, at, size);
      AlignedSlice(ptype, m, at, size);
      r := UnpackFixed(slice, ptype, w, was);
      return size / w, r;
    }
    if !IsNumeric(ptype) { return -1, r; }
    n, r := UnpackVarints(m, at, size, ptype, was);
  }

  lemma UnalignedNone(ptype: PType, m: seq<byte>, at: int, size: int)
    requires FixedWidth(ptype) > 0 && size % FixedWidth(ptype) != 0
    ensures Unpacked(ptype, SliceOf(m, at, size)) == []
  {
  }

  lemma AlignedSlice(ptype: PType, m: seq<byte>, at: int, size: int)
    requires FixedWidth(ptype) > 0 && size % FixedWidth(ptype) == 0
    ensures Aligned(FixedWidth(ptype), |SliceOf(m, at, size)|)
  {
  }

  lemma AlignedStep(ptype: PType, w: nat, b: seq<byte>, i: nat)
    requires Aligned(w, |b|) && Aligned(w, i) && i < |b|
    ensures i + w <= |b| && Aligned(w, i + w) && Aligned(w, |b[i..]|) && Aligned(w, |b[i + w..]|)
    ensures FixedWords(ptype, w, b[i..]) == [Raw(ptype, FixedWord(b[i..i + w]))] + FixedWords(ptype, w, b[i + w..])
  {
    hide FixedWord;
    hide Raw;
    hide Aligned;
    hide WordCount;
    AlignedSplit(w, |b|, i);
    assert b[i..][..w] == b[i..i + w] && b[i..][w..] == b[i + w..];
  }

  lemma AlignedSplit(w: nat, n: nat, i: nat)
    requires Aligned(w, n) && Aligned(w, i) && i < n
    ensures i + w <= n && Aligned(w, i + w) && Aligned(w, n - i) && Aligned(w, n - (i + w))
  {
    if w == 4 { Split4(n / 4, i / 4); } else { Split8(n / 8, i / 8); }
  }

  lemma Split4(n: nat, i: nat)
    requires 4 * i < 4 * n
    ensures 4 * i + 4 <= 4 * n && (4 * i + 4) % 4 == (4 * n - 4 * i) % 4 == (4 * n - (4 * i + 4)) % 4 == 0
  {
    assert 4 * i + 4 == 4 * (i + 1) && 4 * n - 4 * i == 4 * (n - i) && 4 * n - (4 * i + 4) == 4 * (n - i - 1);
  }

  lemma Split8(n: nat, i: nat)
    requires 8 * i < 8 * n
    ensures 8 * i + 8 <= 8 * n && (8 * i + 8) % 8 == (8 * n - 8 * i) % 8 == (8 * n - (8 * i + 8)) % 8 == 0
  {
    assert 8 * i + 8 == 8 * (i + 1) && 8 * n - 8 * i == 8 * (n - i) && 8 * n - (8 * i + 8) == 8 * (n - i - 1);
  }

  method UnpackFixed(buffer: seq<byte>, ptype: PType, w: nat, was: seq<LongLong>) returns (r: seq<LongLong>)
    requires Aligned(w, |buffer|)
    ensures r == was + FixedWords(ptype, w, buffer)
  {
    hide FixedWord;
    hide Raw;
    r := was;
    var i := 0;
    assert Aligned(w, i) && buffer[0..] == buffer;
    hide Aligned;
    while i < |buffer|
      invariant 0 <= i <= |buffer| && Aligned(w, i) && Aligned(w, |buffer[i..]|)
      invariant r + FixedWords(ptype, w, buffer[i..]) == was + FixedWords(ptype, w, buffer)
      decreases |buffer| - i
    {
      AlignedStep(ptype, w, buffer, i);
      hide FixedWords;
      ghost var more := FixedWords(ptype, w, buffer[i + w..]);
      var x := Raw(ptype, FixedWord(buffer[i..i + w]));
      assert r + ([x] + more) == r + [x] + more;
      r := r + [x];
      i := i + w;
    }
  }

  /** `_pbcV_decode`, straight on the memory: it stops at the end of the number, so that fewer than
      ten bytes will do when a number ends among them. */
  method DecodeLoose(m: seq<byte>) returns (len: nat, v: LongLong)
    requires ReadVarint(m).Some?
    ensures ReadVarint(m) == Some((len, v))
  {
    if |m| >= 10 {
      len, v := Decode(m);
    } else {
      var padded := m + seq(10 - |m|, _ => 0);
      assert padded[..|m|] == m;
      ScratchCopy(m, padded);
      len, v := Decode(padded);
    }
  }

  method UnpackVarints(m: seq<byte>, at: int, size: int, ptype: PType, was: seq<LongLong>)
    returns (n: int, r: seq<LongLong>)
    requires size > 0 ==> 0 <= at && at + size <= |m| && Reach(m[at..], size).Some?
    ensures var slice := SliceOf(m, at, size);
            && r == was + VarintNumbers(ptype, slice)
            && n == if WholeVarints(slice) then |VarintNumbers(ptype, slice)| else -1
  {
    hide *;
    r, n := was, 0;
    var p, left := at, size;
    ghost var slice := SliceOf(m, at, size);
    NoNumbers(ptype, m);
    while left > 0
      invariant left > 0 ==> 0 <= p && p + left <= |m| && Reach(m[p..], left).Some?
      invariant left >= 0 || size <= 0
      invariant r + VarintNumbers(ptype, SliceOf(m, p, left)) == was + VarintNumbers(ptype, slice)
      invariant WholeVarints(SliceOf(m, p, left)) == WholeVarints(slice)
      invariant n + |VarintNumbers(ptype, SliceOf(m, p, left))| == |VarintNumbers(ptype, slice)|
      decreases left
    {
      OneNumber(ptype, m, p, left);
      var len, v := DecodeLoose(m[p..]);
      if len > left { return -1, r; }
      var more := VarintNumbers(ptype, SliceOf(m, p + len, left - len));
      assert r + ([Raw(ptype, v)] + more) == r + [Raw(ptype, v)] + more;
      r := r + [Raw(ptype, v)];
      p, left := p + len, left - len;
      n := n + 1;
    }
  }

  lemma NoNumbers(ptype: PType, m: seq<byte>)
    ensures forall p: int, left: int :: left <= 0 ==> SliceOf(m, p, left) == []
    ensures VarintNumbers(ptype, []) == [] && WholeVarints([])
  {
  }

  /** One turn of the loop. */
  lemma OneNumber(ptype: PType, m: seq<byte>, p: int, left: nat)
    requires left > 0 && 0 <= p && p + left <= |m| && Reach(m[p..], left).Some?
    ensures ReadVarint(m[p..]).Some?
    ensures var (len, v) := ReadVarint(m[p..]).value;
            var slice, rest := SliceOf(m, p, left), SliceOf(m, p + len, left - len);
            if len > left then VarintNumbers(ptype, slice) == [] && !WholeVarints(slice)
            else
              && VarintNumbers(ptype, slice) == [Raw(ptype, v)] + VarintNumbers(ptype, rest)
              && WholeVarints(slice) == WholeVarints(rest)
              && (left > len ==> Reach(m[p + len..], left - len).Some?)
  {
    hide *;
    var b, slice := m[p..], m[p..p + left];
    ReachStep(b, left);
    ReadPrefix(b, left);
    assert b[..left] == slice;
    SliceIs(m, p, left);
    NumbersStep(ptype, slice);
    var len := ReadVarint(b).value.0;
    if len <= left {
      SliceIs(m, p + len, left - len);
      assert slice[len..] == m[p + len..p + left];
      assert b[len..] == m[p + len..];
    }
  }

  lemma SliceIs(m: seq<byte>, p: int, left: nat)
    requires 0 <= p && p + left <= |m|
    ensures SliceOf(m, p, left) == m[p..p + left]
  {
  }

  lemma ReachStep(m: seq<byte>, size: nat)
    requires size > 0 && Reach(m, size).Some?
    ensures ReadVarint(m).Some?
    ensures ReadVarint(m).value.0 < size ==> Reach(m[ReadVarint(m).value.0..], size - ReadVarint(m).value.0).Some?
  {
    hide ReadVarint;
  }

  lemma NumbersStep(ptype: PType, b: seq<byte>)
    requires b != []
    ensures ReadVarint(b).None? ==> VarintNumbers(ptype, b) == [] && !WholeVarints(b)
    ensures ReadVarint(b).Some? ==>
              var (n, v) := ReadVarint(b).value;
              VarintNumbers(ptype, b) == [Raw(ptype, v)] + VarintNumbers(ptype, b[n..])
                && WholeVarints(b) == WholeVarints(b[n..])
  {
    hide ReadVarint;
    hide Raw;
  }

  // ----- atoms of packed fields ------------------------------------------------------------------

  /** The source reads a packed field without looking at its wire type: the slice that the two words of
      the atom make must lie in the message, unless nothing is read, and its last varint must end
      before the memory does. `beyond` is what lies in memory behind the message. */
  predicate PackedSafe(ptype: PType, a: Atom, b: seq<byte>, beyond: seq<byte>) {
    ReadsSome(ptype, a.Size()) ==>
      && 0 <= a.Start() && a.Start() + a.Size() <= |b|
      && (FixedWidth(ptype) == 0 ==> Reach((b + beyond)[a.Start()..], a.Size()).Some?)
  }

  /** What the unpacker needs, and that it does not see what lies behind the message. */
  lemma SafeIsReadable(ptype: PType, a: Atom, b: seq<byte>, beyond: seq<byte>)
    requires PackedSafe(ptype, a, b, beyond)
    ensures Readable(ptype, b + beyond, a.Start(), a.Size())
    ensures Unpacked(ptype, SliceOf(b + beyond, a.Start(), a.Size()))
            == Unpacked(ptype, SliceOf(b, a.Start(), a.Size()))
    ensures CountOf(ptype, SliceOf(b + beyond, a.Start(), a.Size()), a.Size())
         == CountOf(ptype, SliceOf(b, a.Start(), a.Size()), a.Size())
  {
    hide Reach;
    hide CountOf;
    var at: int, size: int := a.Start(), a.Size();
    if ReadsSome(ptype, size) {
      assert SliceOf(b + beyond, at, size) == SliceOf(b, at, size) by {
        assert (b + beyond)[at..at + size] == b[at..at + size];
      }
    } else {
      NothingRead(ptype, b, at, size);
      NothingRead(ptype, b + beyond, at, size);
    }
    hide Unpacked;
  }

  lemma NothingRead(ptype: PType, m: seq<byte>, at: int, size: int)
    requires !ReadsSome(ptype, size)
    ensures Unpacked(ptype, SliceOf(m, at, size)) == []
    ensures CountOf(ptype, SliceOf(m, at, size), size) == CountOf(ptype, [], size)
  {
  }

  /** The condition is exact: all that the call for a packed field reads, on memory of any address,
      lies in the message if and only if it holds with nothing behind the message. */
  lemma PackedStaysInside(ptype: PType, a: Atom, b: seq<byte>, mem: int -> byte)
    requires Holds(mem, b)
    ensures var end := ReadEnd(ptype, mem, a.Start(), a.Size());
            PackedSafe(ptype, a, b, []) <==> end == a.Start() || (0 <= a.Start() && end <= |b|)
  {
    StaysInside(ptype, mem, b, a.Start(), a.Size());
    assert b + [] == b;
    hide Reach;
    hide ReadEnd;
  }

  /** A slice that is one needs no memory behind the message when it ends where a varint ends, and no
      more than nine bytes of it otherwise. */
  lemma SlicePackedSafe(ptype: PType, a: Atom, b: seq<byte>, beyond: seq<byte>)
    requires |b| < 0x8000_0000 && a.SliceIn(0, |b|)
    ensures !IsNumeric(ptype) || FixedWidth(ptype) > 0 || WholeVarints(b[a.low..a.hi]) ==>
              PackedSafe(ptype, a, b, beyond)
    ensures |beyond| >= 10 ==> PackedSafe(ptype, a, b, beyond)
  {
    assert a.Start() == a.low && a.Size() == a.hi - a.low;
    var m, size := (b + beyond)[a.low..], a.hi - a.low;
    assert m[..size] == b[a.low..a.hi];
    ReachIsSize(m, size);
    if |beyond| >= 10 { ReachEnough(m, size); }
    hide Reach;
    hide WholeVarints;
  }

  /** The message 08 F6 FF FF FF 0F gives the field with the id 1 as a number. If the field is packed
      and of type int32, ten bytes before the message are read. */
  lemma PackedOutside(beyond: seq<byte>)
    ensures var b, a := [0x08, 0xF6, 0xFF, 0xFF, 0xFF, 0x0F], Atom(8, 0xFFFF_FFF6, 0);
            && ParseAll(b, 0) == Some([a]) && a.Id() == 1 && a.Start() == -10 && a.Size() == 10
            && !PackedSafe(Int32, a, b, beyond)
  {
    var n := 0xFFFF_FFF6;
    VarintSteps(n);
    VarintSteps(0x1FF_FFFF);
    VarintSteps(0x3_FFFF);
    VarintSteps(0x7FF);
    VarintSteps(0xF);
    hide *;
    assert Varint(n) == [0xF6, 0xFF, 0xFF, 0xFF, 0x0F];
    assert [0x08] + Varint(n) == [0x08, 0xF6, 0xFF, 0xFF, 0xFF, 0x0F];
    NumberAlone(n);
    NotInside(beyond);
  }

  lemma NotInside(beyond: seq<byte>)
    ensures var a := Atom(8, 0xFFFF_FFF6, 0);
            && a.Id() == 1 && a.Start() == -10 && a.Size() == 10
            && !PackedSafe(Int32, a, [0x08, 0xF6, 0xFF, 0xFF, 0xFF, 0x0F], beyond)
  {
    hide Reach;
  }

  /** A message that gives the field with the id 1 as a number. */
  lemma NumberAlone(n: u32)
    ensures |[0x08] + Varint(n)| < 0x8000_0000 && ParseAll([0x08] + Varint(n), 0) == Some([Atom(8, n, 0)])
  {
    var r := Record(1, VarintValue(n));
    VarintSteps(8);
    Widths(n);
    SmallHalves(n);
    assert RecordBytes(r) == [0x08] + Varint(n);
    assert Encode([r]) == RecordBytes(r) + Encode([]) == RecordBytes(r);
    assert AtomsOf([r], 0) == [AtomOf(r, 0)] + [] == [Atom(8, n, 0)];
    hide *;
    ParseEncodedAll([r], 0);
  }
}
