/** Splitting a message into atoms (lualib-src/pbc/src/context.c). */
module Contexts {
  import opened Words
  import opened Varints
  import opened Wire

  /** `(PBC_CONTEXT_CAP - sizeof(struct context)) / sizeof(struct atom)` with 64-bit pointers. */
  const INNER_ATOM := 19

  /** Decodes a varint that may be cut short, as `wiretype_decode` does: fewer than ten bytes
      are first copied to the scratch buffer, which keeps what it held behind them. */
  method DecodeBounded(buffer: seq<byte>, temp: array<byte>) returns (len: nat, r: LongLong)
    requires temp.Length == 10
    modifies temp
    ensures temp[..] == Copied(buffer, old(temp[..]))
    ensures (len, r) == Scratched(buffer, old(temp[..]))
    ensures ReadVarint(buffer) == if len <= |buffer| then Some((len, r)) else None
  {
    var cap := |buffer|;
    ScratchedReads(buffer, temp[..]);
    if cap >= 10 {
      len, r := Decode(buffer);
    } else {
      forall i | 0 <= i < cap { temp[i] := buffer[i]; }
      assert temp[..] == buffer + old(temp[..])[cap..];
      len, r := Decode(temp[..]);
    }
  }

  /** `wiretype_decode`; `next` is the number of bytes to move on, `None` for NULL. There is one scratch
      buffer, which holds `tail` at first, for both of the varints. A length and its own width are added
      in 32 bits. */
  method WiretypeDecode(buffer: seq<byte>, start: nat, tail: Tail) returns (next: Option<nat>, a: Atom)
    requires start + |buffer| < 0x8000_0000
    ensures match TakeRecord(buffer, start, tail)
            case None => next == None
            case Some((atom, n)) => next == Some(n) && a == atom
  {
    hide ReadVarint;
    hide Scratched;
    hide Copied;
    hide Word32;
    a := Atom(0, 0, 0);
    var temp := new byte[10](i requires 0 <= i < 10 => tail[i]);
    assert temp[..] == tail;
    var len, r := DecodeBounded(buffer, temp);
    if len > |buffer| || r.hi != 0 { return None, a; }
    var wireType, wireId := r.low % 8, Signed32(r.low);
    var body := buffer[len..];
    if wireType == WT_VARINT {
      var n, v := DecodeBounded(body, temp);
      if |body| < n { return None, a; }
      return Some(len + n), Atom(wireId, v.low, v.hi);
    } else if wireType == WT_BIT64 {
      if |body| < 8 { return None, a; }
      return Some(len + 8), Atom(wireId, Word32(body[..4]), Word32(body[4..8]));
    } else if wireType == WT_LEND {
      var n, v := DecodeBounded(body, temp);
      LendTaken(buffer, start, tail, len, r.low, n, v);
      if |body| < (n + v.low) % 0x1_0000_0000 || v.hi != 0 { return None, a; }
      return Some(len + n + v.low), Atom(wireId, start + len + n, (start + len + n + v.low) % 0x1_0000_0000);
    } else if wireType == WT_BIT32 {
      if |body| < 4 { return None, a; }
      return Some(len + 4), Atom(wireId, Word32(body[..4]), 0);
    } else {
      return None, a;
    }
  }

  /** The length-delimited case. */
  lemma LendTaken(b: seq<byte>, start: nat, tail: Tail, len: nat, low: u32, n: nat, v: LongLong)
    requires start + |b| < 0x8000_0000 && len <= |b| && low % 8 == WT_LEND
    requires ReadVarint(b) == Some((len, LongLong(low, 0))) && (n, v) == Scratched(b[len..], Copied(b, tail))
    ensures start + len + n < 0x1_0000_0000
    ensures TakeRecord(b, start, tail)
         == if |b| - len < (n + v.low) % 0x1_0000_0000 || v.hi != 0 then None
            else
              var atom := Atom(Signed32(low), start + len + n, (start + len + n + v.low) % 0x1_0000_0000);
              Some((atom, len + n + v.low))
  {
    hide ReadVarint;
    hide Scratched;
    hide Copied;
    hide ParseRecord;
    if !RunsAway(b, tail) { LendParsed(b, start, Copied(b, tail), len, low, n, v); }
  }

  lemma LendParsed(b: seq<byte>, start: nat, tail: Tail, len: nat, low: u32, n: nat, v: LongLong)
    requires start + |b| < 0x8000_0000 && len <= |b| && low % 8 == WT_LEND
    requires ReadVarint(b) == Some((len, LongLong(low, 0))) && (n, v) == Scratched(b[len..], tail)
    requires !LengthWraps(b[len..], tail)
    ensures n + v.low <= |b| - len ==> start + len + n + v.low < 0x8000_0000
    ensures ParseRecord(b, start)
         == if |b| - len < n + v.low || v.hi != 0 then None
            else Some((Atom(Signed32(low), start + len + n, start + len + n + v.low), len + n + v.low))
  {
    hide *;
    ScratchedReads(b[len..], tail);
    LendFormat(b, start, len, low);
    NoWrapIs(b[len..], tail, n, v);
  }

  lemma NoWrapIs(b: seq<byte>, tail: Tail, n: nat, v: LongLong)
    requires !LengthWraps(b, tail) && (n, v) == Scratched(b, tail)
    ensures v.hi == 0 ==> n + v.low < 0x1_0000_0000 || n + v.low > 0x1_0000_0000 + |b|
  {
    hide Scratched;
  }

  /** What the format allows of a length-delimited record. */
  lemma LendFormat(b: seq<byte>, start: nat, len: nat, low: u32)
    requires start + |b| < 0x8000_0000 && len <= |b| && low % 8 == WT_LEND
    requires ReadVarint(b) == Some((len, LongLong(low, 0)))
    ensures match ReadVarint(b[len..])
            case None => ParseRecord(b, start) == None
            case Some((n, v)) =>
              if |b| - len < n + v.low || v.hi != 0 then ParseRecord(b, start) == None
              else
                && start + len + n + v.low < 0x8000_0000
                && ParseRecord(b, start)
                   == Some((Atom(Signed32(low), start + len + n, start + len + n + v.low), len + n + v.low))
  {
    assert Signed32(low) % 8 == WT_LEND;
    hide ReadVarint;
    hide Signed32;
  }

  /** `done` are the records before `rest`, and the rest decides the outcome. */
  ghost predicate Parsed(b: seq<byte>, junk: Junk, done: seq<Atom>, rest: seq<byte>, start: nat) {
    && |b| < 0x8000_0000
    && start + |rest| == |b|
    && TakeAll(b, 0, junk) == Behind(done, TakeAll(rest, start, junk))
  }

  lemma ParsedNothing(b: seq<byte>, junk: Junk)
    requires |b| < 0x8000_0000
    ensures Parsed(b, junk, [], b, 0)
    ensures b == [] ==> TakeAll(b, 0, junk) == All([])
  {
    hide TakeRecord;
    var o := TakeAll(b, 0, junk);
    if o.All? { assert [] + o.atoms == o.atoms; }
  }

  lemma ParsedEverything(b: seq<byte>, junk: Junk, done: seq<Atom>, start: nat)
    requires Parsed(b, junk, done, [], start)
    ensures TakeAll(b, 0, junk) == All(done)
  {
    hide TakeRecord;
    assert done + [] == done;
    assert TakeAll([], start, junk) == All([]);
  }

  /** `size -= next - buffer`, in 32 bits. */
  function Left(size: nat, n: nat): (r: nat)
    requires n <= size || 0x1_0000_0000 <= n <= 0x1_0000_0000 + size
  {
    if n <= size then size - n else 0x1_0000_0000 + size - n
  }

  lemma LeftIs(size: nat, n: nat)
    requires n <= size || 0x1_0000_0000 <= n <= 0x1_0000_0000 + size
    ensures Left(size, n) == size - n + if n <= size then 0 else 0x1_0000_0000
  {
  }

  /** One record more. If it runs away, there is either nothing left of the message, as an int has it, or
      the parser is lost. */
  lemma ParsedOneMore(b: seq<byte>, junk: Junk, done: seq<Atom>, rest: seq<byte>, start: nat)
    requires Parsed(b, junk, done, rest, start) && rest != []
    ensures start + |rest| == |b| < 0x8000_0000
    ensures match TakeRecord(rest, start, junk(start))
            case None => TakeAll(b, 0, junk) == Refused(|done|)
            case Some((a, n)) =>
              && 2 <= n && (n <= |rest| || 0x1_0000_0000 < n <= 0x1_0000_0000 + |rest|)
              && var left := Left(|rest|, n);
                 if n > |rest| && left > 0 then TakeAll(b, 0, junk) == Lost
                 else
                   && left < |rest|
                   && Parsed(b, junk, done + [a], rest[|rest| - left..], start + (|rest| - left))
  {
    hide *;
    ParsedIs(b, junk, done, rest, start);
    TakenWrongly(rest, start, junk(start));
    TakeStep(rest, start, junk);
    var t := TakeRecord(rest, start, junk(start));
    if t.None? {
      BehindIs(done, Refused(0));
    } else {
      var (a, n) := t.value;
      if n <= |rest| {
        LeftIs(|rest|, n);
        BehindMore(done, a, TakeAll(rest[n..], start + n, junk));
        ParsedIs(b, junk, done + [a], rest[n..], start + n);
      } else {
        LeftIs(|rest|, n);
        BehindIs(done, All([a]));
        BehindIs(done, Lost);
        BehindIs(done + [a], All([]));
        NotAstray(|b|, junk);
        assert Left(|rest|, n) == 0 ==> rest[|rest|..] == [];
        assert done + [a] + [] == done + [a];
        ParsedIs(b, junk, done + [a], [], |b|);
      }
    }
  }

  lemma ParsedIs(b: seq<byte>, junk: Junk, done: seq<Atom>, rest: seq<byte>, start: nat)
    ensures Parsed(b, junk, done, rest, start) <==>
              && |b| < 0x8000_0000
              && start + |rest| == |b|
              && TakeAll(b, 0, junk) == Behind(done, TakeAll(rest, start, junk))
  {
    hide TakeAll;
    hide Behind;
  }

  lemma BehindIs(done: seq<Atom>, rest: Outcome)
    ensures Behind(done, rest)
         == match rest
            case All(atoms) => All(done + atoms)
            case Refused(good) => Refused(|done| + good)
            case Lost => Lost
  {
  }

  lemma BehindMore(done: seq<Atom>, a: Atom, rest: Outcome)
    ensures Behind(done, Behind([a], rest)) == Behind(done + [a], rest)
  {
    if rest.All? { assert done + ([a] + rest.atoms) == done + [a] + rest.atoms; }
  }

  /** A message that is not empty has an atom. */
  lemma SomeAtoms(b: seq<byte>, junk: Junk)
    requires 0 < |b| < 0x8000_0000
    ensures TakeAll(b, 0, junk).All? ==> |TakeAll(b, 0, junk).atoms| > 0
  {
    hide TakeRecord;
  }

  /** Where the parser stands: on its way, stopped by a bad record, or led away from the message. */
  datatype Progress = Going | Stopped | Gone

  class Context {
    var buffer: seq<byte>
    var size: nat
    var number: nat
    const inner: array<Atom>
    var a: array?<Atom>

    /** The first places of the block are the atoms. */
    ghost predicate Holds(a: array<Atom>, atoms: seq<Atom>)
      reads a
    {
      |atoms| <= a.Length && a[..|atoms|] == atoms
    }

    /** The place for so many atoms: the inline array for at most 19 of them, and else a block of the least
        multiple of 64 places. */
    ghost predicate Roomy(a: array<Atom>, n: nat) {
      if n <= 19 then a == inner else a.Length % 64 == 0 && n <= a.Length < n + 64
    }

    constructor ()
      ensures inner.Length == INNER_ATOM && fresh(inner)
    {
      inner := new Atom[INNER_ATOM];
    }

    /** `_pbcC_open`. A bad record makes the result zero or negative: minus the number of good
        records before it. Otherwise the result is the number of atoms, and they are the
        reference parser's; more than 19 lie in a block of the least multiple of 64. There is no result
        when a record runs away and something is left of the message: the source then goes on reading
        four gigabytes behind it. */
    method Open(buffer: seq<byte>, junk: Junk) returns (r: Option<int>)
      requires inner.Length == INNER_ATOM && |buffer| < 0x8000_0000
      modifies this, inner
      ensures this.buffer == buffer && size == |buffer|
      ensures match TakeAll(buffer, 0, junk)
              case Lost => r == None
              case Refused(good) => r == Some(-(good as int))
              case All(atoms) =>
                && r == Some(|atoms|) && number == |atoms|
                && (buffer != [] ==> number > 0 && a != null && Holds(a, atoms) && Roomy(a, number))
      ensures a == null || a == inner || fresh(a)
    {
      assert INNER_ATOM == 19;
      hide *;
      ParsedNothing(buffer, junk);
      this.buffer, size := buffer, |buffer|;
      if buffer == [] {
        number, a := 0, null;
        return Some(0);
      }
      SomeAtoms(buffer, junk);
      ParsedIs(buffer, junk, [], buffer, 0);
      r := OpenSome(buffer, junk);
    }

    /** The same for a message that is not empty. */
    method OpenSome(buffer: seq<byte>, junk: Junk) returns (r: Option<int>)
      requires inner.Length == INNER_ATOM == 19 && buffer != [] && Parsed(buffer, junk, [], buffer, 0)
      modifies this`number, this`a, inner
      ensures |buffer| < 0x8000_0000
      ensures match TakeAll(buffer, 0, junk)
              case Lost => r == None
              case Refused(good) => r == Some(-(good as int))
              case All(atoms) =>
                r == Some(|atoms|) && number == |atoms| && a != null && Holds(a, atoms) && Roomy(a, number)
      ensures a == null || a == inner || fresh(a)
    {
      hide *;
      ParsedIs(buffer, junk, [], buffer, 0);
      var state, i, rest, start;
      ghost var done: seq<Atom>;
      state, i, rest, start, done := FillInner(buffer, junk);
      a := inner;
      if state == Going && rest != [] {
        var heap;
        state, i, heap, start, done := FillRest(buffer, junk, rest, start, done);
        a := heap;
      }
      if state == Gone { return None; }
      if state == Stopped { return Some(-(i as int)); }
      number := i;
      ParsedEverything(buffer, junk, done, start);
      HoldsIs(a, done);
      RoomyIs(a, i);
      return Some(i);
    }

    lemma HoldsIs(a: array<Atom>, atoms: seq<Atom>)
      ensures Holds(a, atoms) <==> |atoms| <= a.Length && a[..|atoms|] == atoms
    {
    }

    lemma RoomyIs(a: array<Atom>, n: nat)
      ensures Roomy(a, n) <==> if n <= 19 then a == inner else a.Length % 64 == 0 && n <= a.Length < n + 64
    {
    }

    /** The first loop: atoms go to the inline array until it is full. */
    method FillInner(buffer: seq<byte>, junk: Junk)
      returns (state: Progress, i: nat, rest: seq<byte>, start: nat, ghost done: seq<Atom>)
      requires Parsed(buffer, junk, [], buffer, 0)
      modifies inner
      ensures i == |done| <= inner.Length && inner[..i] == done
      ensures state == Going ==> Parsed(buffer, junk, done, rest, start) && (rest != [] ==> i == inner.Length)
      ensures state == Stopped ==> TakeAll(buffer, 0, junk) == Refused(i)
      ensures state == Gone ==> TakeAll(buffer, 0, junk) == Lost
    {
      hide *;
      i, rest, start, done := 0, buffer, 0, [];
      while i < inner.Length && rest != []
        invariant 0 <= i == |done| <= inner.Length
        invariant Parsed(buffer, junk, done, rest, start) && inner[..i] == done
      {
        ParsedOneMore(buffer, junk, done, rest, start);
        var next, atom := WiretypeDecode(rest, start, junk(start));
        if next == None { return Stopped, i, rest, start, done; }
        var left := Left(|rest|, next.value);
        if next.value > |rest| && left > 0 { return Gone, i, rest, start, done; }
        inner[i] := atom;
        assert inner[..i + 1] == inner[..i] + [atom];
        done := done + [atom];
        start, rest, i := start + (|rest| - left), rest[|rest| - left..], i + 1;
      }
      state := Going;
    }

    /** The second loop: the other atoms go to a block on the heap that grows by 64 at a time. */
    method FillHeap(buffer: seq<byte>, junk: Junk, from: seq<byte>, at: nat, ghost before: seq<Atom>)
      returns (state: Progress, i: nat, heap: array<Atom>, start: nat, ghost done: seq<Atom>)
      requires Parsed(buffer, junk, before, from, at) && |before| == inner.Length <= 64 && from != []
      ensures fresh(heap) && inner.Length <= i == |done| <= heap.Length
      ensures heap[inner.Length..i] == done[inner.Length..] && before <= done
      ensures state == Going ==> inner.Length < i && heap.Length % 64 == 0 && heap.Length < i + 64
      ensures state == Going ==> Parsed(buffer, junk, done, [], start)
      ensures state == Stopped ==> TakeAll(buffer, 0, junk) == Refused(i)
      ensures state == Gone ==> TakeAll(buffer, 0, junk) == Lost
    {
      hide *;
      var cap := 64;
      heap := new Atom[cap];
      var rest := from;
      i, start, done := inner.Length, at, before;
      while rest != []
        invariant inner.Length <= i == |done| <= cap == heap.Length && fresh(heap)
        invariant Parsed(buffer, junk, done, rest, start)
        invariant before <= done && heap[inner.Length..i] == done[inner.Length..]
        invariant cap % 64 == 0 && (cap < i + 64 || (cap == i + 64 && rest != []))
        invariant i == inner.Length ==> rest == from
        decreases |rest|, cap - i == 0
      {
        if i >= cap {
          heap := Grow(heap, cap + 64);
          cap := cap + 64;
          continue;
        }
        ParsedOneMore(buffer, junk, done, rest, start);
        var next, atom := WiretypeDecode(rest, start, junk(start));
        if next == None { return Stopped, i, heap, start, done; }
        var left := Left(|rest|, next.value);
        if next.value > |rest| && left > 0 { return Gone, i, heap, start, done; }
        heap[i] := atom;
        assert heap[inner.Length..i + 1] == heap[inner.Length..i] + [atom];
        done := done + [atom];
        start, rest, i := start + (|rest| - left), rest[|rest| - left..], i + 1;
      }
      state := Going;
    }

    /** The same, and then the inline atoms join the others. */
    method FillRest(buffer: seq<byte>, junk: Junk, from: seq<byte>, at: nat, ghost before: seq<Atom>)
      returns (state: Progress, i: nat, heap: array<Atom>, start: nat, ghost done: seq<Atom>)
      requires Parsed(buffer, junk, before, from, at) && |before| == inner.Length <= 64 && inner[..] == before
      requires from != []
      ensures fresh(heap)
      ensures state == Going ==>
                Parsed(buffer, junk, done, [], start) && i == |done| <= heap.Length && heap[..i] == done
      ensures state == Going ==> inner.Length < i && heap.Length % 64 == 0 && heap.Length < i + 64
      ensures state == Stopped ==> TakeAll(buffer, 0, junk) == Refused(i)
      ensures state == Gone ==> TakeAll(buffer, 0, junk) == Lost
    {
      hide *;
      state, i, heap, start, done := FillHeap(buffer, junk, from, at, before);
      if state == Going {
        CopyInner(heap, done[..inner.Length]);
        assert heap[..i] == heap[..inner.Length] + heap[inner.Length..i];
        assert done == done[..inner.Length] + done[inner.Length..];
      }
    }

    /** `memcpy` of the inline atoms to the front of the block. */
    method CopyInner(heap: array<Atom>, ghost first: seq<Atom>)
      requires inner != heap && inner.Length <= heap.Length && inner[..] == first
      modifies heap
      ensures heap[..inner.Length] == first && heap[inner.Length..] == old(heap[inner.Length..])
    {
      forall k | 0 <= k < inner.Length { heap[k] := inner[k]; }
    }
  }

  /** `realloc`. */
  method Grow(block: array<Atom>, cap: nat) returns (r: array<Atom>)
    requires block.Length <= cap
    ensures fresh(r) && r.Length == cap && r[..block.Length] == block[..]
  {
    r := new Atom[cap];
    forall i | 0 <= i < block.Length { r[i] := block[i]; }
  }
}
